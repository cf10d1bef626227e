/** Where every token of a command line goes.  A successful parse gives each token one role; the
    log and the unmatched tokens are then determined by the tokens and their roles alone. */
module ArgvRoles {
  import opened Outcomes
  import opened OptionSyntax
  import opened OptionValues
  import opened OptionParsing

  datatype Role =
    | Flag                   // read as a flag
    | FlagValue              // the value of the flag before it
    | Positional(slot: nat)  // given to the positional option in this slot
    | Separator              // the `--` that ends the main loop
    | Refused                // offered to the positional options and not taken
    | Unknown                // a long flag that is not registered

  // ---------- the account of a command line ----------

  /** An option was given a text. */
  datatype Giving = Giving(option: Details, text: string)

  /** The log tells options by their long names. */
  function Logged(list: seq<Giving>): seq<KeyValue> {
    seq(|list|, i requires 0 <= i < |list| => KeyValue(list[i].option.longName, list[i].text))
  }

  /** What the letters of a cluster give; the last letter gives `value` if it took one. */
  function LetterEntries(cfg: Config, letters: string, value: Option<string>): seq<Giving> {
    if letters == "" then []
    else
      var name := letters[..1];
      if name !in cfg.options then LetterEntries(cfg, letters[1..], value)
      else
        var d := cfg.options[name];
        var text := if |letters| == 1 && value.Some? then value.value else d.implicitText;
        [Giving(d, text)] + LetterEntries(cfg, letters[1..], value)
  }

  function FlagEntries(cfg: Config, token: string, value: Option<string>): seq<Giving> {
    match Classify(token)
    case Cluster(letters) => LetterEntries(cfg, letters, value)
    case LongWithValue(name, text) =>
      if name in cfg.options then [Giving(cfg.options[name], text)] else []
    case Long(name) =>
      if name in cfg.options then
        [Giving(cfg.options[name], if value.Some? then value.value else cfg.options[name].implicitText)]
      else []
    case _ => []
  }

  /** What the first of some tokens gives. */
  function Entry(cfg: Config, tokens: seq<string>, roles: seq<Role>): seq<Giving>
    requires |tokens| == |roles| > 0
  {
    match roles[0]
    case Flag => FlagEntries(cfg, tokens[0], if |roles| > 1 && roles[1].FlagValue? then Some(tokens[1]) else None)
    case Positional(p) =>
      if p < |cfg.positional| && cfg.positional[p] in cfg.options then
        [Giving(cfg.options[cfg.positional[p]], tokens[0])]
      else []
    case _ => []
  }

  /** What tokens with these roles give to the options, in order. */
  function Given(cfg: Config, tokens: seq<string>, roles: seq<Role>): seq<Giving>
    requires |tokens| == |roles|
  {
    if tokens == [] then [] else Entry(cfg, tokens, roles) + Given(cfg, tokens[1..], roles[1..])
  }

  /** The log that tokens with these roles leave. */
  function Ledger(cfg: Config, tokens: seq<string>, roles: seq<Role>): seq<KeyValue>
    requires |tokens| == |roles|
  {
    Logged(Given(cfg, tokens, roles))
  }

  lemma LoggedConcat(a: seq<Giving>, b: seq<Giving>)
    ensures Logged(a + b) == Logged(a) + Logged(b)
  {}

  /** The tokens nobody took, in order. */
  function Leftover(tokens: seq<string>, roles: seq<Role>): seq<string>
    requires |tokens| == |roles|
  {
    if tokens == [] then []
    else (if roles[0].Refused? || roles[0].Unknown? then [tokens[0]] else [])
         + Leftover(tokens[1..], roles[1..])
  }

  predicate NamesUnknownLong(cfg: Config, token: string) {
    var t := Classify(token);
    (t.Long? || t.LongWithValue?) && t.name !in cfg.options
  }

  predicate NamesFlag(cfg: Config, token: string) {
    var t := Classify(token);
    t.Cluster? || ((t.Long? || t.LongWithValue?) && t.name in cfg.options)
  }

  /** The letters of a cluster that parses: known ones, unless unknown ones are let through, and
      only the last may need a value. */
  predicate LettersFit(cfg: Config, letters: string) {
    letters == "" ||
    (var name := letters[..1];
     && (name in cfg.options || cfg.lenient)
     && (name in cfg.options && |letters| > 1 ==> cfg.options[name].hasImplicit)
     && LettersFit(cfg, letters[1..]))
  }

  predicate NeedsValue(cfg: Config, name: string) {
    name in cfg.options && !cfg.options[name].hasImplicit
  }

  /** The flag takes the next token: it has no text attached, and its (last) option needs a value. */
  predicate TakesNext(cfg: Config, token: string) {
    match Classify(token)
    case Cluster(letters) => letters != "" && NeedsValue(cfg, letters[|letters| - 1..])
    case Long(name) => NeedsValue(cfg, name)
    case _ => false
  }

  /** The role of the `i`th token suits it, while the main loop runs. */
  predicate RoleFits(cfg: Config, tokens: seq<string>, roles: seq<Role>, i: nat)
    requires i < |tokens| == |roles|
  {
    && (tokens[i] == "--" ==> roles[i].Separator? || roles[i].FlagValue?)
    && match roles[i]
       case Flag =>
         && NamesFlag(cfg, tokens[i])
         && (Classify(tokens[i]).Cluster? ==> LettersFit(cfg, Classify(tokens[i]).letters))
         && (TakesNext(cfg, tokens[i]) ==> i + 1 < |roles| && roles[i + 1].FlagValue?)
       case FlagValue => i > 0 && roles[i - 1].Flag? && TakesNext(cfg, tokens[i - 1])
       case Unknown => cfg.lenient && NamesUnknownLong(cfg, tokens[i])
       case Separator => tokens[i] == "--" && i == |roles| - 1
       case _ => Classify(tokens[i]).Plain? && ("-" <= tokens[i] && tokens[i] != "-" ==> cfg.lenient)
  }

  predicate IsContainer(cfg: Config, p: nat) {
    p < |cfg.positional| && cfg.positional[p] in cfg.options
    && cfg.options[cfg.positional[p]].kind.Vector?
  }

  /** The positional cursor goes from `lo` to `hi` over tokens with these roles: it never moves
      back, passes a scalar slot that took a token, stays on a container, and once it has refused
      a token there is nothing left to offer. */
  ghost predicate CursorMoves(cfg: Config, roles: seq<Role>, lo: nat, hi: nat) {
    && lo <= hi <= |cfg.positional|
    && (forall i | 0 <= i < |roles| && roles[i].Positional? :: InSlot(cfg, roles[i].slot, lo, hi))
    && (forall i | 0 <= i < |roles| && roles[i].Refused? :: hi == |cfg.positional| && !IsContainer(cfg, lo))
    && (IsContainer(cfg, lo) ==> hi == lo)
    && (forall i, j | 0 <= i < j < |roles| && roles[i].Positional? && roles[j].Positional? ::
          InOrder(cfg, roles[i].slot, roles[j].slot))
    && (forall i, j | 0 <= i < j < |roles| && roles[i].Refused? :: !roles[j].Positional?)
    && (forall i, j | 0 <= i < j < |roles| && roles[i].Positional? && IsContainer(cfg, roles[i].slot) ::
          !roles[j].Refused?)
  }

  predicate InSlot(cfg: Config, p: nat, lo: nat, hi: nat) {
    && lo <= p < |cfg.positional|
    && (if IsContainer(cfg, p) then p == hi else p < hi)
    && (IsContainer(cfg, lo) ==> p == lo)
  }

  /** The slots of an earlier and a later positional token. */
  predicate InOrder(cfg: Config, p: nat, q: nat) {
    if IsContainer(cfg, p) then p == q else p < q
  }

  // ---------- positional tokens ----------

  /** The first slot from `next` on that can take a token, or that names no option. */
  ghost function FreeSlot(cfg: Config, store: Store, next: nat): (p: nat)
    requires next <= |cfg.positional|
    ensures next <= p <= |cfg.positional|
    ensures IsContainer(cfg, next) ==> p == next
    ensures forall q | next <= q < p :: !IsContainer(cfg, q)
    decreases |cfg.positional| - next
  {
    if next == |cfg.positional| || cfg.positional[next] !in cfg.options || IsContainer(cfg, next)
       || Slot(store.parsed, cfg.options[cfg.positional[next]].Key()).count == 0
    then next
    else FreeSlot(cfg, store, next + 1)
  }

  lemma {:induction false} ConsumeAtFreeSlot(cfg: Config, store: Store, next: nat, token: string)
    requires next <= |cfg.positional|
    ensures var p := FreeSlot(cfg, store, next);
            ConsumePositional(cfg, store, next, token)
            == if p == |cfg.positional| then Success(Taken(store, p, false))
               else if cfg.positional[p] !in cfg.options then Failure(OptionNotExists(cfg.positional[p]))
               else
                 var d := cfg.options[cfg.positional[p]];
                 var s := StoreOption(store, d, token);
                 if s.Success? then Success(Taken(s.value, if d.kind.Vector? then p else p + 1, true))
                 else Failure(s.error)
    decreases |cfg.positional| - next
  {
    hide StoreOption;
    if next < |cfg.positional| && FreeSlot(cfg, store, next) != next {
      ConsumeAtFreeSlot(cfg, store, next + 1, token);
    }
  }

  /** The role of a token that is offered to the positional options. */
  ghost function OfferedRole(cfg: Config, store: Store, next: nat): Role
    requires next <= |cfg.positional|
  {
    var p := FreeSlot(cfg, store, next);
    if p == |cfg.positional| then Refused else Positional(p)
  }

  lemma OfferMovesCursor(cfg: Config, store: Store, next: nat, token: string)
    requires next <= |cfg.positional|
    requires ConsumePositional(cfg, store, next, token).Success?
    ensures var t := ConsumePositional(cfg, store, next, token).value;
            var role := OfferedRole(cfg, store, next);
            && CursorMoves(cfg, [role], next, t.next)
            && (role.Positional? || role.Refused?)
            && (t.accepted <==> role.Positional?)
            && (!t.accepted ==> t.store == store && t.next == |cfg.positional|)
            && t.store.log == store.log + Ledger(cfg, [token], [role])
            && Leftover([token], [role]) == if t.accepted then [] else [token]
  {
    ConsumeAtFreeSlot(cfg, store, next, token);
    hide ParseInto, FreeSlot, ConsumePositional;
    NothingLeft(cfg);
    var role := OfferedRole(cfg, store, next);
    assert [token][1..] == [] && [role][1..] == [];
    assert Given(cfg, [token], [role]) == Entry(cfg, [token], [role]) + Given(cfg, [], []);
  }

  lemma CursorConcat(cfg: Config, a: seq<Role>, b: seq<Role>, lo: nat, mid: nat, hi: nat)
    requires CursorMoves(cfg, a, lo, mid) && CursorMoves(cfg, b, mid, hi)
    ensures CursorMoves(cfg, a + b, lo, hi)
  {
    var roles := a + b;
    forall i | 0 <= i < |roles|
      ensures roles[i].Positional? ==> InSlot(cfg, roles[i].slot, lo, hi)
      ensures roles[i].Refused? ==> hi == |cfg.positional| && !IsContainer(cfg, lo)
    {
      if i >= |a| {
        assert roles[i] == b[i - |a|];
      }
    }
    forall i, j | 0 <= i < j < |roles|
      ensures roles[i].Positional? && roles[j].Positional? ==> InOrder(cfg, roles[i].slot, roles[j].slot)
      ensures roles[i].Refused? ==> !roles[j].Positional?
      ensures roles[i].Positional? && IsContainer(cfg, roles[i].slot) ==> !roles[j].Refused?
    {
      if i >= |a| {
        assert roles[i] == b[i - |a|] && roles[j] == b[j - |a|];
      } else if j >= |a| {
        assert roles[i] == a[i] && roles[j] == b[j - |a|];
      }
    }
  }

  lemma LedgerConcat(cfg: Config, ts: seq<string>, rs: seq<Role>, ts': seq<string>, rs': seq<Role>)
    requires |ts| == |rs| && |ts'| == |rs'|
    requires rs' != [] ==> !rs'[0].FlagValue?
    ensures Ledger(cfg, ts + ts', rs + rs') == Ledger(cfg, ts, rs) + Ledger(cfg, ts', rs')
  {
    hide Given, Logged;
    GivenConcat(cfg, ts, rs, ts', rs');
    LoggedConcat(Given(cfg, ts, rs), Given(cfg, ts', rs'));
  }

  lemma {:induction false} GivenConcat(
    cfg: Config, ts: seq<string>, rs: seq<Role>, ts': seq<string>, rs': seq<Role>)
    requires |ts| == |rs| && |ts'| == |rs'|
    requires rs' != [] ==> !rs'[0].FlagValue?
    ensures Given(cfg, ts + ts', rs + rs') == Given(cfg, ts, rs) + Given(cfg, ts', rs')
  {
    hide Entry;
    if ts == [] {
      assert ts + ts' == ts' && rs + rs' == rs';
    } else {
      EntryIsLocal(cfg, ts, rs, ts', rs');
      assert (ts + ts')[1..] == ts[1..] + ts' && (rs + rs')[1..] == rs[1..] + rs';
      GivenConcat(cfg, ts[1..], rs[1..], ts', rs');
    }
  }

  lemma EntryIsLocal(cfg: Config, ts: seq<string>, rs: seq<Role>, ts': seq<string>, rs': seq<Role>)
    requires |ts| == |rs| > 0 && |ts'| == |rs'|
    requires rs' != [] ==> !rs'[0].FlagValue?
    ensures Entry(cfg, ts + ts', rs + rs') == Entry(cfg, ts, rs)
  {
    hide FlagEntries;
  }

  lemma {:induction false} LeftoverConcat(ts: seq<string>, rs: seq<Role>, ts': seq<string>, rs': seq<Role>)
    requires |ts| == |rs| && |ts'| == |rs'|
    ensures Leftover(ts + ts', rs + rs') == Leftover(ts, rs) + Leftover(ts', rs')
  {
    if ts == [] {
      assert ts + ts' == ts' && rs + rs' == rs';
    } else {
      assert (ts + ts')[1..] == ts[1..] + ts' && (rs + rs')[1..] == rs[1..] + rs';
      LeftoverConcat(ts[1..], rs[1..], ts', rs');
      var first := if rs[0].Refused? || rs[0].Unknown? then [ts[0]] else [];
      Associative(first, Leftover(ts[1..], rs[1..]), Leftover(ts', rs'));
    }
  }

  // ---------- the main loop ----------

  /** The roles of the tokens that one turn of the main loop uses. */
  ghost function StepRoles(cfg: Config, st: State, tokens: seq<string>): (roles: seq<Role>)
    requires tokens != [] && tokens[0] != "--" && Step(cfg, st, tokens).Success?
    requires st.next <= |cfg.positional|
    ensures |roles| == Step(cfg, st, tokens).value.width
    ensures !roles[0].FlagValue?
  {
    if Step(cfg, st, tokens).value.width == 2 then [Flag, FlagValue]
    else if NamesFlag(cfg, tokens[0]) then [Flag]
    else if NamesUnknownLong(cfg, tokens[0]) then [Unknown]
    else [OfferedRole(cfg, st.store, st.next)]
  }

  lemma {:induction false} ClusterLogs(cfg: Config, store: Store, letters: string, rest: seq<string>)
    requires ParseCluster(cfg, store, letters, rest).Success?
    ensures var a := ParseCluster(cfg, store, letters, rest).value;
            a.store.log == store.log + Logged(LetterEntries(cfg, letters, if a.used == 1 then Some(rest[0]) else None))
    decreases |letters|
  {
    hide StoreOption, Logged;
    NothingLeft(cfg);
    if letters != "" {
      var name := letters[..1];
      var value := if ParseCluster(cfg, store, letters, rest).value.used == 1 then Some(rest[0]) else None;
      if name !in cfg.options {
        ClusterLogs(cfg, store, letters[1..], rest);
      } else {
        var d := cfg.options[name];
        var text := if |letters| == 1 && value.Some? then value.value else d.implicitText;
        var others := LetterEntries(cfg, letters[1..], value);
        StoreLogs(store, d, text);
        LoggedConcat([Giving(d, text)], others);
        if |letters| == 1 {
          assert others == [] && Logged([Giving(d, text)]) + [] == Logged([Giving(d, text)]);
        } else {
          ClusterLogs(cfg, StoreOption(store, d, text).value, letters[1..], rest);
          Associative(store.log, Logged([Giving(d, text)]), Logged(others));
        }
      }
    }
  }

  lemma StoreLogs(store: Store, d: Details, text: string)
    ensures var s := StoreOption(store, d, text);
            s.Success? ==> s.value.log == store.log + Logged([Giving(d, text)])
  {
    hide ParseInto;
  }

  /** One turn accounts for the tokens it uses. */
  lemma StepAccounts(cfg: Config, st: State, tokens: seq<string>)
    requires tokens != [] && tokens[0] != "--" && Step(cfg, st, tokens).Success?
    requires st.next <= |cfg.positional|
    ensures var m := Step(cfg, st, tokens).value; var roles := StepRoles(cfg, st, tokens);
            && m.state.store.log == st.store.log + Ledger(cfg, tokens[..m.width], roles)
            && m.state.unmatched == st.unmatched + Leftover(tokens[..m.width], roles)
            && CursorMoves(cfg, roles, st.next, m.state.next)
            && (forall i | 0 <= i < m.width :: RoleFits(cfg, tokens[..m.width], roles, i))
  {
    hide StoreOption, CheckedParseArg, ParseCluster, ConsumePositional, Classify, FreeSlot, CursorMoves,
      Given, Logged, Leftover, TakesNext, LettersFit;
    var m, roles := Step(cfg, st, tokens).value, StepRoles(cfg, st, tokens);
    var used := tokens[..m.width];
    StepLedger(cfg, used, roles);
    if NamesFlag(cfg, tokens[0]) {
      FlagLogs(cfg, st, tokens);
      FlagFits(cfg, st, tokens);
      FlagsKeepCursor(cfg, roles, st.next);
    } else if NamesUnknownLong(cfg, tokens[0]) {
      NothingLeft(cfg);
      FlagsKeepCursor(cfg, roles, st.next);
    } else {
      assert Classify(tokens[0]).Plain? by { ClassifiedTokenIsInGrammar(tokens[0]); }
      OfferMovesCursor(cfg, st.store, st.next, tokens[0]);
    }
  }

  lemma FlagsKeepCursor(cfg: Config, roles: seq<Role>, next: nat)
    requires next <= |cfg.positional|
    requires forall i | 0 <= i < |roles| :: !roles[i].Positional? && !roles[i].Refused?
    ensures CursorMoves(cfg, roles, next, next)
  {}

  lemma {:induction false} ClusterFits(cfg: Config, store: Store, letters: string, rest: seq<string>)
    requires letters != "" && ParseCluster(cfg, store, letters, rest).Success?
    ensures LettersFit(cfg, letters)
    ensures ParseCluster(cfg, store, letters, rest).value.used == 1 <==> NeedsValue(cfg, letters[|letters| - 1..])
    decreases |letters|
  {
    hide StoreOption, CheckedParseArg, NeedsValue;
    var name, others := letters[..1], letters[1..];
    LastLetter(letters);
    if others == "" {
      NeedsValueMeans(cfg, name);
    } else if name in cfg.options {
      ClusterFits(cfg, StoreOption(store, cfg.options[name], cfg.options[name].implicitText).value, others, rest);
    } else {
      ClusterFits(cfg, store, others, rest);
    }
  }

  lemma LastLetter(letters: string)
    requires letters != ""
    ensures |letters| == 1 ==> letters[..1] == letters[|letters| - 1..]
    ensures |letters| > 1 ==> letters[1..][|letters| - 2..] == letters[|letters| - 1..]
  {}

  lemma NeedsValueMeans(cfg: Config, name: string)
    ensures NeedsValue(cfg, name) <==> name in cfg.options && !cfg.options[name].hasImplicit
  {}

  lemma FlagFits(cfg: Config, st: State, tokens: seq<string>)
    requires tokens != [] && tokens[0] != "--" && NamesFlag(cfg, tokens[0])
    requires Step(cfg, st, tokens).Success?
    ensures Step(cfg, st, tokens).value.width == 2 <==> TakesNext(cfg, tokens[0])
    ensures Classify(tokens[0]).Cluster? ==> LettersFit(cfg, Classify(tokens[0]).letters)
  {
    hide StoreOption, ParseCluster, Classify, LettersFit;
    ClassifiedTokenIsInGrammar(tokens[0]);
    if Classify(tokens[0]).Cluster? {
      ClusterFits(cfg, st.store, Classify(tokens[0]).letters, tokens[1..]);
    }
  }

  lemma FlagLogs(cfg: Config, st: State, tokens: seq<string>)
    requires tokens != [] && tokens[0] != "--" && NamesFlag(cfg, tokens[0])
    requires Step(cfg, st, tokens).Success?
    ensures var m := Step(cfg, st, tokens).value;
            && m.state.next == st.next && m.state.unmatched == st.unmatched
            && m.state.store.log == st.store.log
               + Logged(FlagEntries(cfg, tokens[0], if m.width == 2 then Some(tokens[1]) else None))
  {
    hide ParseInto, ParseCluster, Classify;
    if Classify(tokens[0]).Cluster? {
      ClusterLogs(cfg, st.store, Classify(tokens[0]).letters, tokens[1..]);
    }
  }

  /** The ledger of one turn. */
  lemma StepLedger(cfg: Config, used: seq<string>, roles: seq<Role>)
    requires |used| == |roles| && (|used| == 1 || (|used| == 2 && roles == [Flag, FlagValue]))
    requires !roles[0].FlagValue?
    ensures roles[0].Flag? ==>
              Given(cfg, used, roles) == FlagEntries(cfg, used[0], if |used| == 2 then Some(used[1]) else None)
    ensures roles[0].Unknown? ==> Given(cfg, used, roles) == []
    ensures roles[0].Positional? || roles[0].Refused? ==>
              Given(cfg, used, roles) == Given(cfg, [used[0]], [roles[0]])
    ensures Leftover(used, roles) == if roles[0].Refused? || roles[0].Unknown? then [used[0]] else []
  {
    hide FlagEntries;
    if |used| == 2 {
      assert used[1..] == [used[1]] && roles[1..] == [FlagValue];
      assert Given(cfg, [used[1]], [FlagValue]) == [];
      assert Leftover([used[1]], [FlagValue]) == [];
    } else {
      assert used == [used[0]] && roles == [roles[0]];
    }
  }

  /** The roles of the tokens that the main loop uses, the separator included. */
  ghost function LoopRoles(cfg: Config, st: State, tokens: seq<string>): (roles: seq<Role>)
    requires Loop(cfg, st, tokens).Success? && st.next <= |cfg.positional|
    ensures |roles| <= |tokens|
    ensures roles != [] ==> !roles[0].FlagValue?
    decreases |tokens|
  {
    if tokens == [] then []
    else if tokens[0] == "--" then [Separator]
    else
      StepAccounts(cfg, st, tokens);
      var m := Step(cfg, st, tokens).value;
      StepRoles(cfg, st, tokens) + LoopRoles(cfg, m.state, tokens[m.width..])
  }

  lemma FitsConcat(cfg: Config, ts: seq<string>, rs: seq<Role>, ts': seq<string>, rs': seq<Role>)
    requires |ts| == |rs| && |ts'| == |rs'|
    requires forall i | 0 <= i < |ts| :: RoleFits(cfg, ts, rs, i) && !rs[i].Separator?
    requires forall i | 0 <= i < |ts'| :: RoleFits(cfg, ts', rs', i)
    ensures forall i | 0 <= i < |ts + ts'| :: RoleFits(cfg, ts + ts', rs + rs', i)
  {
    hide NamesFlag, NamesUnknownLong, Classify, TakesNext, LettersFit;
    forall i | 0 <= i < |ts + ts'| ensures RoleFits(cfg, ts + ts', rs + rs', i) {
      if i < |ts| {
        assert RoleFits(cfg, ts, rs, i);
      } else {
        assert RoleFits(cfg, ts', rs', i - |ts|);
      }
    }
  }

  /** `roles` account for what the main loop did from `st` on to `e`. */
  ghost predicate LoopAccounted(cfg: Config, st: State, tokens: seq<string>, roles: seq<Role>, e: Ended) {
    && |roles| <= |tokens|
    && var used := tokens[..|roles|];
    && e.state.store.log == st.store.log + Ledger(cfg, used, roles)
    && e.state.unmatched == st.unmatched + Leftover(used, roles)
    && CursorMoves(cfg, roles, st.next, e.state.next)
    && (forall i | 0 <= i < |used| :: RoleFits(cfg, used, roles, i))
    && (e.rest.None? ==> |roles| == |tokens| && forall i | 0 <= i < |roles| :: !roles[i].Separator?)
    && (e.rest.Some? ==> roles != [] && roles[|roles| - 1].Separator? && e.rest.value == tokens[|roles|..])
  }

  lemma {:induction false} LoopAccounts(cfg: Config, st: State, tokens: seq<string>)
    requires Loop(cfg, st, tokens).Success? && st.next <= |cfg.positional|
    ensures LoopAccounted(cfg, st, tokens, LoopRoles(cfg, st, tokens), Loop(cfg, st, tokens).value)
    decreases |tokens|
  {
    hide Step, StepRoles, Ledger, Leftover, CursorMoves, RoleFits;
    if tokens == [] {
      NoTokens(cfg, st.next);
      NothingLeft(cfg);
    } else if tokens[0] == "--" {
      AtSeparator(cfg, tokens, st.next);
    } else {
      hide LoopAccounted;
      StepAccounts(cfg, st, tokens);
      StepHasNoSeparator(cfg, st, tokens);
      var m := Step(cfg, st, tokens).value;
      CursorInRange(cfg, StepRoles(cfg, st, tokens), st.next, m.state.next);
      LoopAccounts(cfg, m.state, tokens[m.width..]);
      TurnThenLoop(cfg, st, tokens, StepRoles(cfg, st, tokens), m,
                   LoopRoles(cfg, m.state, tokens[m.width..]), Loop(cfg, st, tokens).value);
    }
  }

  /** One turn in front of an accounted loop. */
  lemma TurnThenLoop(
    cfg: Config, st: State, tokens: seq<string>, first: seq<Role>, m: Move, rest: seq<Role>, e: Ended)
    requires |first| == m.width <= |tokens| && (rest != [] ==> !rest[0].FlagValue?)
    requires m.state.store.log == st.store.log + Ledger(cfg, tokens[..m.width], first)
    requires m.state.unmatched == st.unmatched + Leftover(tokens[..m.width], first)
    requires CursorMoves(cfg, first, st.next, m.state.next)
    requires forall i | 0 <= i < m.width :: RoleFits(cfg, tokens[..m.width], first, i) && !first[i].Separator?
    requires LoopAccounted(cfg, m.state, tokens[m.width..], rest, e)
    ensures LoopAccounted(cfg, st, tokens, first + rest, e)
  {
    hide Ledger, Leftover, CursorMoves, RoleFits;
    var used, used' := tokens[..m.width], tokens[m.width..][..|rest|];
    SplitTurn(tokens, first, rest);
    JoinTurns(cfg, used, first, used', rest, st.next, m.state.next, e.state.next);
    Associative(st.store.log, Ledger(cfg, used, first), Ledger(cfg, used', rest));
    Associative(st.unmatched, Leftover(used, first), Leftover(used', rest));
  }

  lemma Associative<T>(a: seq<T>, b: seq<T>, c: seq<T>)
    ensures a + b + c == a + (b + c)
  {}

  /** The tokens of a turn, and of the turns after it. */
  lemma SplitTurn(tokens: seq<string>, first: seq<Role>, rest: seq<Role>)
    requires |first| + |rest| <= |tokens|
    ensures tokens[..|first + rest|] == tokens[..|first|] + tokens[|first|..][..|rest|]
    ensures tokens[|first + rest|..] == tokens[|first|..][|rest|..]
  {}

  /** One turn and the turns after it. */
  lemma JoinTurns(
    cfg: Config, ts: seq<string>, rs: seq<Role>, ts': seq<string>, rs': seq<Role>, lo: nat, mid: nat, hi: nat)
    requires |ts| == |rs| && |ts'| == |rs'|
    requires rs' != [] ==> !rs'[0].FlagValue?
    requires forall i | 0 <= i < |ts| :: RoleFits(cfg, ts, rs, i) && !rs[i].Separator?
    requires forall i | 0 <= i < |ts'| :: RoleFits(cfg, ts', rs', i)
    requires CursorMoves(cfg, rs, lo, mid) && CursorMoves(cfg, rs', mid, hi)
    ensures Ledger(cfg, ts + ts', rs + rs') == Ledger(cfg, ts, rs) + Ledger(cfg, ts', rs')
    ensures Leftover(ts + ts', rs + rs') == Leftover(ts, rs) + Leftover(ts', rs')
    ensures CursorMoves(cfg, rs + rs', lo, hi)
    ensures forall i | 0 <= i < |ts + ts'| :: RoleFits(cfg, ts + ts', rs + rs', i)
  {
    hide Ledger, Leftover, CursorMoves, RoleFits;
    LedgerConcat(cfg, ts, rs, ts', rs');
    LeftoverConcat(ts, rs, ts', rs');
    CursorConcat(cfg, rs, rs', lo, mid, hi);
    FitsConcat(cfg, ts, rs, ts', rs');
  }

  lemma NoTokens(cfg: Config, next: nat)
    requires next <= |cfg.positional|
    ensures CursorMoves(cfg, [], next, next)
  {}

  lemma AtSeparator(cfg: Config, tokens: seq<string>, next: nat)
    requires tokens != [] && tokens[0] == "--" && next <= |cfg.positional|
    ensures CursorMoves(cfg, [Separator], next, next)
    ensures Ledger(cfg, tokens[..1], [Separator]) == [] && Leftover(tokens[..1], [Separator]) == []
    ensures RoleFits(cfg, tokens[..1], [Separator], 0)
  {
    assert Given(cfg, [], []) == [];
    assert tokens[..1][1..] == [] && [Separator][1..] == [];
    assert Given(cfg, tokens[..1], [Separator]) == [];
  }

  lemma StepHasNoSeparator(cfg: Config, st: State, tokens: seq<string>)
    requires tokens != [] && tokens[0] != "--" && Step(cfg, st, tokens).Success?
    requires st.next <= |cfg.positional|
    ensures forall i | 0 <= i < |StepRoles(cfg, st, tokens)| :: !StepRoles(cfg, st, tokens)[i].Separator?
  {
    hide Step, FreeSlot;
  }

  // ---------- the tokens after the separator ----------

  ghost function RestRoles(cfg: Config, st: State, tokens: seq<string>): (roles: seq<Role>)
    requires TakeRest(cfg, st, tokens).Success? && st.next <= |cfg.positional|
    ensures |roles| == |tokens|
    ensures forall i | 0 <= i < |roles| :: roles[i].Positional? || roles[i].Refused?
    decreases |tokens|
  {
    if tokens == [] then []
    else
      var t := ConsumePositional(cfg, st.store, st.next, tokens[0]).value;
      [OfferedRole(cfg, st.store, st.next)]
      + if t.accepted then RestRoles(cfg, State(t.store, t.next, st.unmatched), tokens[1..])
        else seq(|tokens| - 1, i => Refused)
  }

  lemma {:induction false} AllRefused(cfg: Config, tokens: seq<string>)
    ensures var roles := seq(|tokens|, i => Refused);
            Ledger(cfg, tokens, roles) == [] && Leftover(tokens, roles) == tokens
  {
    var roles := seq(|tokens|, i => Refused);
    if tokens != [] {
      AllRefused(cfg, tokens[1..]);
      assert roles[1..] == seq(|tokens[1..]|, i => Refused);
    }
  }

  lemma {:induction false} RestAccounts(cfg: Config, st: State, tokens: seq<string>)
    requires TakeRest(cfg, st, tokens).Success? && st.next <= |cfg.positional|
    ensures var e := TakeRest(cfg, st, tokens).value; var roles := RestRoles(cfg, st, tokens);
            && e.store.log == st.store.log + Ledger(cfg, tokens, roles)
            && e.unmatched == st.unmatched + Leftover(tokens, roles)
            && CursorMoves(cfg, roles, st.next, e.next)
    decreases |tokens|
  {
    hide ConsumePositional, Ledger, Leftover, CursorMoves, OfferedRole;
    if tokens == [] {
      NoTokens(cfg, st.next);
      NothingLeft(cfg);
    } else {
      var t := ConsumePositional(cfg, st.store, st.next, tokens[0]).value;
      var role := OfferedRole(cfg, st.store, st.next);
      var others := tokens[1..];
      OfferMovesCursor(cfg, st.store, st.next, tokens[0]);
      assert tokens == [tokens[0]] + others;
      if t.accepted {
        var st' := State(t.store, t.next, st.unmatched);
        RestAccounts(cfg, st', others);
        LedgerConcat(cfg, [tokens[0]], [role], others, RestRoles(cfg, st', others));
        LeftoverConcat([tokens[0]], [role], others, RestRoles(cfg, st', others));
        CursorConcat(cfg, [role], RestRoles(cfg, st', others), st.next, t.next, TakeRest(cfg, st, tokens).value.next);
      } else {
        AllRefused(cfg, tokens);
        assert [role] + seq(|tokens| - 1, i => Refused) == seq(|tokens|, i => Refused);
        RefusalsKeepCursor(cfg, st.next, t.next, |tokens|, role);
      }
    }
  }

  lemma RefusalsKeepCursor(cfg: Config, next: nat, end: nat, n: nat, role: Role)
    requires CursorMoves(cfg, [role], next, end) && role.Refused? && n > 0
    ensures CursorMoves(cfg, seq(n, i => Refused), next, end)
  {
    assert [role][0].Refused?;
  }

  // ---------- the whole command line ----------

  lemma {:induction false} ApplyDefaultsKeepsLog(cfg: Config, store: Store, names: seq<string>)
    requires AllRegistered(cfg, names) && ApplyDefaults(cfg, store, names).Success?
    ensures ApplyDefaults(cfg, store, names).value.log == store.log
    decreases |names|
  {
    hide ParseInto;
    if names != [] {
      var s := ApplyDefault(store, cfg.options[names[0]]).value;
      ApplyDefaultsKeepsLog(cfg, s, names[1..]);
    }
  }

  ghost function Roles(cfg: Config, order: seq<string>, args: seq<string>): seq<Role>
    requires AllRegistered(cfg, order) && Consume(cfg, order, args).Success?
  {
    var ended := Loop(cfg, START, args).value;
    var store := ApplyDefaults(cfg, ended.state.store, order).value;
    LoopAccounts(cfg, START, args);
    LoopRoles(cfg, START, args)
    + if ended.rest.None? then [] else RestRoles(cfg, ended.state.(store := store), ended.rest.value)
  }

  /** The number of tokens before the separator and including it, or of all tokens. */
  function LoopLength(roles: seq<Role>): (n: nat)
    ensures n <= |roles|
  {
    if roles == [] then 0 else if roles[0].Separator? then 1 else 1 + LoopLength(roles[1..])
  }

  /** The roles cover the command line, suit their tokens, and explain the whole outcome. */
  ghost predicate Accounts(
    cfg: Config, args: seq<string>, roles: seq<Role>, arguments: seq<KeyValue>, unmatched: seq<string>)
  {
    && |roles| == |args|
    && arguments == Ledger(cfg, args, roles)
    && unmatched == Leftover(args, roles)
    && (exists hi :: CursorMoves(cfg, roles, 0, hi))
    && var n := LoopLength(roles);
       && (forall i | 0 <= i < n :: RoleFits(cfg, args[..n], roles[..n], i))
       && (forall i | n <= i < |roles| :: roles[i].Positional? || roles[i].Refused?)
  }

  lemma {:induction false} LoopLengthIs(a: seq<Role>, b: seq<Role>)
    requires forall i | 0 <= i < |a| - 1 :: !a[i].Separator?
    requires b == [] || (a != [] && a[|a| - 1].Separator?)
    ensures LoopLength(a + b) == |a|
  {
    if |a| > 1 {
      assert (a + b)[1..] == a[1..] + b;
      LoopLengthIs(a[1..], b);
    } else if |a| == 1 {
      assert (a + b)[1..] == b;
    }
  }

  /** The roles of the main loop and the roles after it make one account. */
  lemma JoinAccounts(
    cfg: Config, used: seq<string>, a: seq<Role>, rest: seq<string>, b: seq<Role>, mid: nat, hi: nat)
    requires |used| == |a| && |rest| == |b|
    requires forall i | 0 <= i < |used| :: RoleFits(cfg, used, a, i)
    requires forall i | 0 <= i < |b| :: b[i].Positional? || b[i].Refused?
    requires b == [] || (a != [] && a[|a| - 1].Separator?)
    requires CursorMoves(cfg, a, 0, mid) && CursorMoves(cfg, b, mid, hi)
    ensures Accounts(cfg, used + rest, a + b, Ledger(cfg, used, a) + Ledger(cfg, rest, b),
                     Leftover(used, a) + Leftover(rest, b))
  {
    hide Ledger, Leftover, CursorMoves, RoleFits, LoopLength;
    LastIsOnlySeparator(cfg, used, a);
    LedgerConcat(cfg, used, a, rest, b);
    LeftoverConcat(used, a, rest, b);
    CursorConcat(cfg, a, b, 0, mid, hi);
    LoopLengthIs(a, b);
    assert (a + b)[..|a|] == a && (used + rest)[..|a|] == used;
  }

  /** Conservation: whenever a parse succeeds, in strict or lenient mode, every token of the command
      line has exactly one role, and the roles explain the log and the unmatched tokens. */
  lemma EveryTokenHasARole(cfg: Config, order: seq<string>, args: seq<string>)
    requires AllRegistered(cfg, order) && Parse(cfg, order, args).Success?
    ensures var r := Parse(cfg, order, args).value;
            Accounts(cfg, args, Roles(cfg, order, args), r.arguments, r.unmatched)
  {
    hide Loop, ApplyDefaults, TakeRest, Ledger, Leftover, CursorMoves, RoleFits, Accounts, Aliases, EmplaceAll,
      LoopRoles;
    var ended := Loop(cfg, START, args).value;
    var store := ApplyDefaults(cfg, ended.state.store, order).value;
    var st := ended.state.(store := store);
    var a := LoopRoles(cfg, START, args);
    LoopAccounts(cfg, START, args);
    CursorInRange(cfg, a, 0, ended.state.next);
    ApplyDefaultsKeepsLog(cfg, ended.state.store, order);
    var used, rest := args[..|a|], args[|a|..];
    assert args == used + rest;
    if ended.rest.None? {
      NoTokens(cfg, ended.state.next);
      NothingLeft(cfg);
      JoinAccounts(cfg, used, a, [], [], ended.state.next, ended.state.next);
      assert used + [] == args && a + [] == a;
      assert START.store.log + Ledger(cfg, used, a) == Ledger(cfg, used, a) + [];
      assert START.unmatched + Leftover(used, a) == Leftover(used, a) + [];
    } else {
      var b := RestRoles(cfg, st, rest);
      RestAccounts(cfg, st, rest);
      JoinAccounts(cfg, used, a, rest, b, ended.state.next, TakeRest(cfg, st, rest).value.next);
      assert store.log + Ledger(cfg, rest, b) == Ledger(cfg, used, a) + Ledger(cfg, rest, b);
      assert ended.state.unmatched + Leftover(rest, b) == Leftover(used, a) + Leftover(rest, b);
    }
  }

  lemma NothingLeft(cfg: Config)
    ensures Given(cfg, [], []) == [] && Ledger(cfg, [], []) == [] && Leftover([], []) == [] && Logged([]) == []
  {}

  lemma CursorInRange(cfg: Config, roles: seq<Role>, lo: nat, hi: nat)
    requires CursorMoves(cfg, roles, lo, hi)
    ensures hi <= |cfg.positional|
  {}

  lemma LastIsOnlySeparator(cfg: Config, tokens: seq<string>, roles: seq<Role>)
    requires |tokens| == |roles| && forall i | 0 <= i < |tokens| :: RoleFits(cfg, tokens, roles, i)
    ensures forall i | 0 <= i < |roles| - 1 :: !roles[i].Separator?
  {
    hide NamesFlag, NamesUnknownLong, Classify, TakesNext, LettersFit;
    forall i | 0 <= i < |roles| - 1 ensures !roles[i].Separator? {
      assert RoleFits(cfg, tokens, roles, i);
    }
  }

  /** `small` is `big` with some elements left out. */
  ghost predicate IsSubsequence(small: seq<string>, big: seq<string>) {
    || small == []
    || (big != [] && (IsSubsequence(small, big[1..])
                      || (small[0] == big[0] && IsSubsequence(small[1..], big[1..]))))
  }

  /** What is left over keeps its order. */
  lemma {:induction false} LeftoverIsSubsequence(tokens: seq<string>, roles: seq<Role>)
    requires |tokens| == |roles|
    ensures IsSubsequence(Leftover(tokens, roles), tokens)
  {
    if tokens != [] {
      LeftoverIsSubsequence(tokens[1..], roles[1..]);
      var rest := Leftover(tokens[1..], roles[1..]);
      if roles[0].Refused? || roles[0].Unknown? {
        assert Leftover(tokens, roles) == [tokens[0]] + rest && ([tokens[0]] + rest)[1..] == rest;
      } else {
        assert Leftover(tokens, roles) == rest;
      }
    }
  }

  // ---------- stopping at the first refusal ----------

  /** Offering every token after the separator, as if the loop did not break. */
  ghost function OfferAll(cfg: Config, st: State, tokens: seq<string>): Result<State, Error>
    decreases |tokens|
  {
    if tokens == [] then Success(st)
    else
      var t :- ConsumePositional(cfg, st.store, st.next, tokens[0]);
      var unmatched := if t.accepted then st.unmatched else st.unmatched + [tokens[0]];
      OfferAll(cfg, State(t.store, t.next, unmatched), tokens[1..])
  }

  lemma {:induction false} NothingAfterRefusal(cfg: Config, st: State, tokens: seq<string>)
    requires st.next >= |cfg.positional|
    ensures OfferAll(cfg, st, tokens) == Success(st.(unmatched := st.unmatched + tokens))
    decreases |tokens|
  {
    if tokens == [] {
      assert st.unmatched + tokens == st.unmatched;
    } else {
      var st' := st.(unmatched := st.unmatched + [tokens[0]]);
      NothingAfterRefusal(cfg, st', tokens[1..]);
      assert st'.unmatched + tokens[1..] == st.unmatched + tokens;
    }
  }

  /** Breaking at the first refused token gives what offering all tokens gives. */
  lemma {:induction false} BreakLosesNothing(cfg: Config, st: State, tokens: seq<string>)
    requires st.next <= |cfg.positional|
    ensures TakeRest(cfg, st, tokens) == OfferAll(cfg, st, tokens)
    decreases |tokens|
  {
    hide ConsumePositional, FreeSlot, Ledger, Leftover;
    if tokens != [] {
      var t := ConsumePositional(cfg, st.store, st.next, tokens[0]);
      if t.Success? {
        OfferMovesCursor(cfg, st.store, st.next, tokens[0]);
        hide CursorMoves, OfferedRole;
        if t.value.accepted {
          BreakLosesNothing(cfg, State(t.value.store, t.value.next, st.unmatched), tokens[1..]);
        } else {
          var st' := State(t.value.store, t.value.next, st.unmatched + [tokens[0]]);
          NothingAfterRefusal(cfg, st', tokens[1..]);
          assert st'.unmatched + tokens[1..] == st.unmatched + tokens;
        }
      }
    }
  }
}
