/** The parsed state against the log, and against the option map: replaying the log rebuilds every
    option, short and long names lead to the same slot, and neither the defaults nor the aliases
    depend on the order in which the option map is visited. */
module ParsedState {
  import opened Outcomes
  import opened OptionSyntax
  import opened OptionValues
  import opened OptionParsing

  // ---------- assumptions on the option map ----------

  /** No two options share a storage key. */
  ghost predicate DistinctKeys(cfg: Config) {
    forall n, n' | n in cfg.options && n' in cfg.options &&
                   cfg.options[n].Key() == cfg.options[n'].Key() :: cfg.options[n] == cfg.options[n']
  }

  /** No other option has the long name of this one, an absent one included. */
  ghost predicate OwnLongName(cfg: Config, name: string)
    requires name in cfg.options
  {
    forall n | n in cfg.options && cfg.options[n].longName == cfg.options[name].longName ::
      cfg.options[n] == cfg.options[name]
  }

  /** Every option is in the map under exactly its non-empty names. */
  ghost predicate WellNamed(cfg: Config) {
    forall n | n in cfg.options ::
      var d := cfg.options[n];
      && n != "" && (n == d.shortName || n == d.longName)
      && (d.shortName != "" ==> d.shortName in cfg.options && cfg.options[d.shortName] == d)
      && (d.longName != "" ==> d.longName in cfg.options && cfg.options[d.longName] == d)
  }

  // ---------- replaying the log ----------

  /** The values logged under a long name, in order. */
  function ValuesOf(log: seq<KeyValue>, name: string): seq<string> {
    if log == [] then []
    else
      var last := log[|log| - 1];
      ValuesOf(log[..|log| - 1], name) + if last.key == name then [last.value] else []
  }

  /** Parsing values one after another into a store. */
  ghost function Replay(kind: Kind, values: seq<string>, start: Stored): Result<Stored, Error> {
    if values == [] then Success(start)
    else
      var v :- Replay(kind, values[..|values| - 1], start);
      ParseInto(kind, values[|values| - 1], v)
  }

  /** What an option holds before its first value: its default, if that was applied. */
  ghost function Base(d: Details, isDefault: bool): Result<Stored, Error> {
    if isDefault then ParseInto(d.kind, d.defaultText, Initial(d.kind)) else Success(Initial(d.kind))
  }

  /** A slot is what parsing some texts gives, from empty storage or from the default. */
  ghost predicate SlotReplays(slot: OptionValue, d: Details, values: seq<string>) {
    && slot.count == |values|
    && (slot.isDefault ==> d.hasDefault)
    && if slot.count == 0 && !slot.isDefault then slot.storage == None
       else
         && Base(d, slot.isDefault).Success?
         && var v := Replay(d.kind, values, Base(d, slot.isDefault).value);
         && v.Success? && slot.storage == Some(Storage(d, v.value))
  }

  /** A slot is what replaying the log gives. */
  ghost predicate SlotAgrees(slot: OptionValue, d: Details, log: seq<KeyValue>) {
    SlotReplays(slot, d, ValuesOf(log, d.longName))
  }

  /** A slot is filled by its own option only, and not before that is given or defaulted. */
  ghost predicate Owned(slot: OptionValue, d: Details) {
    && (slot.storage.Some? ==> slot.storage.value.owner == d)
    && (slot.count == 0 && !slot.isDefault ==> slot.storage == None)
  }

  /** The log tells options apart by their long names. */
  ghost predicate OptionAgrees(cfg: Config, store: Store, name: string)
    requires name in cfg.options
  {
    var d := cfg.options[name];
    var slot := Slot(store.parsed, d.Key());
    Owned(slot, d) && (OwnLongName(cfg, name) ==> SlotAgrees(slot, d, store.log))
  }

  ghost predicate Agrees(cfg: Config, store: Store) {
    forall n | n in cfg.options :: OptionAgrees(cfg, store, n)
  }

  lemma ValuesOfAppend(log: seq<KeyValue>, e: KeyValue, name: string)
    ensures ValuesOf(log + [e], name) == ValuesOf(log, name) + if e.key == name then [e.value] else []
  {
    assert (log + [e])[..|log|] == log;
  }

  lemma ReplayAppend(kind: Kind, values: seq<string>, value: string, start: Stored)
    ensures Replay(kind, values + [value], start)
         == var v := Replay(kind, values, start);
            if v.Success? then ParseInto(kind, value, v.value) else v
  {
    assert (values + [value])[..|values|] == values;
  }

  lemma StoreOptionAgrees(cfg: Config, store: Store, name: string, arg: string)
    requires DistinctKeys(cfg) && Agrees(cfg, store) && name in cfg.options
    requires StoreOption(store, cfg.options[name], arg).Success?
    ensures Agrees(cfg, StoreOption(store, cfg.options[name], arg).value)
  {
    hide ParseInto, Initial, Replay, ValuesOf, SlotAgrees;
    var d := cfg.options[name];
    var after := StoreOption(store, d, arg).value;
    forall n | n in cfg.options ensures OptionAgrees(cfg, after, n) {
      var d' := cfg.options[n];
      assert OptionAgrees(cfg, store, n);
      if d' == d {
        if OwnLongName(cfg, n) {
          StoredValueAgrees(store, d, arg);
        }
      } else if OwnLongName(cfg, n) {
        OtherEntryChangesNothing(Slot(store.parsed, d'.Key()), d', store.log, KeyValue(d.longName, arg));
      }
    }
  }

  lemma OtherEntryChangesNothing(
    slot: OptionValue, d: Details, log: seq<KeyValue>, e: KeyValue)
    requires SlotAgrees(slot, d, log) && e.key != d.longName
    ensures SlotAgrees(slot, d, log + [e])
  {
    hide ValuesOf, Replay, Base;
    ValuesOfAppend(log, e, d.longName);
    assert ValuesOf(log, d.longName) + [] == ValuesOf(log, d.longName);
  }

  lemma StoredReplays(store: Store, d: Details, arg: string, values: seq<string>)
    requires SlotReplays(Slot(store.parsed, d.Key()), d, values)
    requires StoreOption(store, d, arg).Success?
    ensures SlotReplays(Slot(StoreOption(store, d, arg).value.parsed, d.Key()), d, values + [arg])
  {
    hide ParseInto, Initial;
    ReplayAppend(d.kind, values, arg, Base(d, Slot(store.parsed, d.Key()).isDefault).value);
  }

  lemma StoredValueAgrees(store: Store, d: Details, arg: string)
    requires SlotAgrees(Slot(store.parsed, d.Key()), d, store.log)
    requires StoreOption(store, d, arg).Success?
    ensures var after := StoreOption(store, d, arg).value;
            SlotAgrees(Slot(after.parsed, d.Key()), d, after.log)
  {
    hide ParseInto, Initial, ValuesOf, SlotReplays;
    ValuesOfAppend(store.log, KeyValue(d.longName, arg), d.longName);
    StoredReplays(store, d, arg, ValuesOf(store.log, d.longName));
  }

  // ---------- every phase keeps the agreement ----------

  lemma CheckedParseArgAgrees(cfg: Config, store: Store, name: string, rest: seq<string>)
    requires DistinctKeys(cfg) && Agrees(cfg, store) && name in cfg.options
    requires CheckedParseArg(store, cfg.options[name], name, rest).Success?
    ensures var after := CheckedParseArg(store, cfg.options[name], name, rest).value.store;
            Agrees(cfg, after)
  {
    hide StoreOption, Agrees;
    var d := cfg.options[name];
    StoreOptionAgrees(cfg, store, name, if d.hasImplicit then d.implicitText else rest[0]);
  }

  lemma {:induction false} ClusterAgrees(cfg: Config, store: Store, letters: string, rest: seq<string>)
    requires DistinctKeys(cfg) && Agrees(cfg, store)
    requires ParseCluster(cfg, store, letters, rest).Success?
    ensures var after := ParseCluster(cfg, store, letters, rest).value.store;
            Agrees(cfg, after)
    decreases |letters|
  {
    hide StoreOption, CheckedParseArg, Agrees;
    if letters != "" {
      var name := letters[..1];
      if name !in cfg.options {
        ClusterAgrees(cfg, store, letters[1..], rest);
      } else if |letters| == 1 {
        CheckedParseArgAgrees(cfg, store, name, rest);
      } else {
        var d := cfg.options[name];
        StoreOptionAgrees(cfg, store, name, d.implicitText);
        ClusterAgrees(cfg, StoreOption(store, d, d.implicitText).value, letters[1..], rest);
      }
    }
  }

  lemma {:induction false} ConsumeAgrees(cfg: Config, store: Store, next: nat, token: string)
    requires DistinctKeys(cfg) && Agrees(cfg, store)
    requires ConsumePositional(cfg, store, next, token).Success?
    ensures var after := ConsumePositional(cfg, store, next, token).value.store;
            Agrees(cfg, after)
    decreases |cfg.positional| - next
  {
    hide StoreOption, Agrees;
    if next < |cfg.positional| {
      var d := cfg.options[cfg.positional[next]];
      if d.kind.Vector? || Slot(store.parsed, d.Key()).count == 0 {
        StoreOptionAgrees(cfg, store, cfg.positional[next], token);
      } else {
        ConsumeAgrees(cfg, store, next + 1, token);
      }
    }
  }

  lemma StepAgrees(cfg: Config, st: State, tokens: seq<string>)
    requires DistinctKeys(cfg) && Agrees(cfg, st.store)
    requires tokens != [] && tokens[0] != "--" && Step(cfg, st, tokens).Success?
    ensures var after := Step(cfg, st, tokens).value.state.store;
            Agrees(cfg, after)
  {
    hide StoreOption, CheckedParseArg, ParseCluster, ConsumePositional, Classify, Agrees;
    match Classify(tokens[0])
    case Cluster(letters) => ClusterAgrees(cfg, st.store, letters, tokens[1..]);
    case LongWithValue(name, text) =>
      if name in cfg.options {
        StoreOptionAgrees(cfg, st.store, name, text);
      }
    case Long(name) =>
      if name in cfg.options {
        CheckedParseArgAgrees(cfg, st.store, name, tokens[1..]);
      }
    case _ => ConsumeAgrees(cfg, st.store, st.next, tokens[0]);
  }

  lemma {:induction false} LoopAgrees(cfg: Config, st: State, tokens: seq<string>)
    requires DistinctKeys(cfg) && Agrees(cfg, st.store)
    requires Loop(cfg, st, tokens).Success?
    ensures Agrees(cfg, Loop(cfg, st, tokens).value.state.store)
    decreases |tokens|
  {
    hide Step, Agrees;
    if tokens != [] && tokens[0] != "--" {
      StepAgrees(cfg, st, tokens);
      var m := Step(cfg, st, tokens).value;
      LoopAgrees(cfg, m.state, tokens[m.width..]);
    }
  }

  lemma {:induction false} TakeRestAgrees(cfg: Config, st: State, tokens: seq<string>)
    requires DistinctKeys(cfg) && Agrees(cfg, st.store)
    requires TakeRest(cfg, st, tokens).Success?
    ensures Agrees(cfg, TakeRest(cfg, st, tokens).value.store)
    decreases |tokens|
  {
    hide ConsumePositional, Agrees;
    if tokens != [] {
      ConsumeAgrees(cfg, st.store, st.next, tokens[0]);
      var t := ConsumePositional(cfg, st.store, st.next, tokens[0]).value;
      if t.accepted {
        TakeRestAgrees(cfg, State(t.store, t.next, st.unmatched), tokens[1..]);
      }
    }
  }

  // ---------- defaults ----------

  /** What visiting an option does to its slot. */
  ghost function DefaultedSlot(d: Details, slot: OptionValue): Result<OptionValue, Error> {
    if d.hasDefault && slot.count == 0 && !slot.isDefault then
      var storage := EnsureValue(slot, d);
      var v :- ParseInto(storage.owner.kind, storage.owner.defaultText, storage.value);
      Success(OptionValue(Some(Storage(storage.owner, v)), slot.count, true))
    else Success(slot)
  }

  lemma ApplyDefaultIsPointwise(store: Store, d: Details)
    ensures ApplyDefault(store, d)
         == var s := DefaultedSlot(d, Slot(store.parsed, d.Key()));
            if s.Success? then Success(store.(parsed := store.parsed[d.Key() := s.value]))
            else Failure(s.error)
  {}

  ghost predicate Visited(cfg: Config, names: seq<string>, key: string)
    requires AllRegistered(cfg, names)
  {
    exists i | 0 <= i < |names| :: cfg.options[names[i]].Key() == key
  }

  /** The effect of the loop over the option map, slot by slot.  An option that is visited under
      both its names gets its default once. */
  lemma {:induction false} DefaultsArePointwise(cfg: Config, store: Store, names: seq<string>)
    requires DistinctKeys(cfg) && AllRegistered(cfg, names)
    ensures ApplyDefaults(cfg, store, names).Success? <==>
            forall i | 0 <= i < |names| ::
              DefaultedSlot(cfg.options[names[i]], Slot(store.parsed, cfg.options[names[i]].Key())).Success?
    ensures ApplyDefaults(cfg, store, names).Success? ==>
            var after := ApplyDefaults(cfg, store, names).value;
            && after.log == store.log
            && (forall key :: key in after.parsed <==> key in store.parsed || Visited(cfg, names, key))
            && (forall i | 0 <= i < |names| ::
                  var d := cfg.options[names[i]];
                  Slot(after.parsed, d.Key()) == DefaultedSlot(d, Slot(store.parsed, d.Key())).value)
            && (forall key | !Visited(cfg, names, key) :: Slot(after.parsed, key) == Slot(store.parsed, key))
    decreases |names|
  {
    hide ApplyDefault, DefaultedSlot, Visited;
    if names != [] {
      var d, rest := cfg.options[names[0]], names[1..];
      ApplyDefaultIsPointwise(store, d);
      var first := ApplyDefault(store, d);
      SecondVisitChangesNothing(d, Slot(store.parsed, d.Key()));
      VisitedFirstOrRest(cfg, names, d.Key());
      if first.Success? {
        DefaultsArePointwise(cfg, first.value, rest);
        forall i | 0 <= i < |rest|
          ensures var d' := cfg.options[rest[i]];
                  DefaultedSlot(d', Slot(first.value.parsed, d'.Key()))
                  == DefaultedSlot(d', Slot(store.parsed, d'.Key()))
        {}
        forall key ensures Visited(cfg, names, key) <==> d.Key() == key || Visited(cfg, rest, key) {
          VisitedFirstOrRest(cfg, names, key);
        }
        assert forall i | 0 <= i < |rest| :: rest[i] == names[i + 1];
        if Visited(cfg, rest, d.Key()) {
          var i := WhereVisited(cfg, rest, d.Key());
          assert cfg.options[rest[i]] == d;
        }
      }
    } else {
      NothingVisited(cfg);
    }
  }

  lemma NothingVisited(cfg: Config)
    ensures forall key :: !Visited(cfg, [], key)
  {}

  lemma WhereVisited(cfg: Config, names: seq<string>, key: string) returns (i: nat)
    requires AllRegistered(cfg, names) && Visited(cfg, names, key)
    ensures i < |names| && cfg.options[names[i]].Key() == key
  {
    i :| 0 <= i < |names| && cfg.options[names[i]].Key() == key;
  }

  lemma VisitedFirstOrRest(cfg: Config, names: seq<string>, key: string)
    requires names != [] && AllRegistered(cfg, names)
    ensures Visited(cfg, names, key) <==> cfg.options[names[0]].Key() == key || Visited(cfg, names[1..], key)
  {
    if Visited(cfg, names, key) {
      var i :| 0 <= i < |names| && cfg.options[names[i]].Key() == key;
      assert i > 0 ==> names[1..][i - 1] == names[i];
    }
    if Visited(cfg, names[1..], key) {
      var i :| 0 <= i < |names[1..]| && cfg.options[names[1..][i]].Key() == key;
      assert names[i + 1] == names[1..][i];
    }
  }

  lemma SecondVisitChangesNothing(d: Details, slot: OptionValue)
    ensures var s := DefaultedSlot(d, slot);
            s.Success? ==> DefaultedSlot(d, s.value) == s
  {}

  lemma DefaultedReplays(d: Details, slot: OptionValue, values: seq<string>)
    requires SlotReplays(slot, d, values) && DefaultedSlot(d, slot).Success?
    ensures SlotReplays(DefaultedSlot(d, slot).value, d, values)
  {
    hide ParseInto;
  }

  lemma DefaultedSlotAgrees(d: Details, slot: OptionValue, log: seq<KeyValue>)
    requires Owned(slot, d) && DefaultedSlot(d, slot).Success?
    ensures Owned(DefaultedSlot(d, slot).value, d)
    ensures SlotAgrees(slot, d, log) ==> SlotAgrees(DefaultedSlot(d, slot).value, d, log)
  {
    hide ParseInto, SlotReplays;
    if SlotAgrees(slot, d, log) {
      DefaultedReplays(d, slot, ValuesOf(log, d.longName));
    }
  }

  lemma DefaultsAgree(cfg: Config, store: Store, order: seq<string>)
    requires DistinctKeys(cfg) && IsOrder(cfg, order) && Agrees(cfg, store)
    requires ApplyDefaults(cfg, store, order).Success?
    ensures Agrees(cfg, ApplyDefaults(cfg, store, order).value)
  {
    hide ApplyDefaults, DefaultedSlot, SlotAgrees, Owned, OwnLongName;
    DefaultsArePointwise(cfg, store, order);
    var after := ApplyDefaults(cfg, store, order).value;
    forall n | n in cfg.options ensures OptionAgrees(cfg, after, n) {
      assert n in order && OptionAgrees(cfg, store, n);
      var i :| 0 <= i < |order| && order[i] == n;
      DefaultedSlotAgrees(cfg.options[n], Slot(store.parsed, cfg.options[n].Key()), store.log);
    }
  }

  // ---------- aliases ----------

  lemma {:induction false} AliasesResolve(cfg: Config, keys: map<string, string>, names: seq<string>)
    requires WellNamed(cfg) && AllRegistered(cfg, names)
    requires forall n | n in keys && n != "" :: n in cfg.options && keys[n] == cfg.options[n].Key()
    ensures var keys' := Aliases(cfg, keys, names);
            && (forall n | n in keys' && n != "" :: n in cfg.options && keys'[n] == cfg.options[n].Key())
            && (forall n | n in keys :: n in keys')
            && (forall i | 0 <= i < |names| :: names[i] in keys')
    decreases |names|
  {
    if names != [] {
      var d := cfg.options[names[0]];
      var keys1 := keys[d.shortName := d.Key()][d.longName := d.Key()];
      AliasesResolve(cfg, keys1, names[1..]);
      assert forall i | 1 <= i < |names| :: names[i] == names[1..][i - 1];
    }
  }

  lemma {:induction false} EmplaceIsPointwise(cfg: Config, parsed: map<string, OptionValue>, names: seq<string>)
    requires AllRegistered(cfg, names)
    ensures var after := EmplaceAll(cfg, parsed, names);
            && (forall key :: Slot(after, key) == Slot(parsed, key))
            && (forall key :: key in after <==> key in parsed || Visited(cfg, names, key))
    decreases |names|
  {
    if names != [] {
      var key := cfg.options[names[0]].Key();
      EmplaceIsPointwise(cfg, parsed[key := Slot(parsed, key)], names[1..]);
      forall k ensures Visited(cfg, names, k) <==> key == k || Visited(cfg, names[1..], k) {
        VisitedFirstOrRest(cfg, names, k);
      }
    }
  }

  /** Every registered name, short or long, leads to its option's slot. */
  lemma NamesResolve(
    cfg: Config, order: seq<string>, parsed: map<string, OptionValue>, name: string)
    requires WellNamed(cfg) && IsOrder(cfg, order) && name in cfg.options
    ensures var keys := Aliases(cfg, map[], order); var values := EmplaceAll(cfg, parsed, order);
            && name in keys && keys[name] == cfg.options[name].Key()
            && keys[name] in values && values[keys[name]] == Slot(parsed, cfg.options[name].Key())
  {
    hide Aliases, EmplaceAll;
    AliasesResolve(cfg, map[], order);
    EmplaceIsPointwise(cfg, parsed, order);
    assert name in order;
    var i :| 0 <= i < |order| && order[i] == name;
    assert Visited(cfg, order, cfg.options[name].Key());
    var values := EmplaceAll(cfg, parsed, order);
    assert Slot(values, cfg.options[name].Key()) == Slot(parsed, cfg.options[name].Key());
  }

  // ---------- the results about a whole parse ----------

  lemma StartAgrees(cfg: Config)
    ensures Agrees(cfg, NOTHING)
  {}

  lemma ConsumeKeepsAgreement(cfg: Config, order: seq<string>, args: seq<string>)
    requires DistinctKeys(cfg) && IsOrder(cfg, order)
    requires Consume(cfg, order, args).Success?
    ensures Agrees(cfg, Consume(cfg, order, args).value.store)
  {
    hide Loop, ApplyDefaults, TakeRest, Agrees;
    StartAgrees(cfg);
    LoopAgrees(cfg, START, args);
    var ended := Loop(cfg, START, args).value;
    DefaultsAgree(cfg, ended.state.store, order);
    if ended.rest.Some? {
      var store := ApplyDefaults(cfg, ended.state.store, order).value;
      TakeRestAgrees(cfg, ended.state.(store := store), ended.rest.value);
    }
  }

  /** Log and state agree, in runs with or without `--`, on every option that has its long name to
      itself: its count is the number of its log entries, and its value is what those entries leave when
      they are parsed, in order, into fresh storage, or into the default where that was applied first. */
  lemma LogRebuildsState(cfg: Config, order: seq<string>, args: seq<string>, name: string)
    requires DistinctKeys(cfg) && WellNamed(cfg) && IsOrder(cfg, order)
    requires Parse(cfg, order, args).Success? && name in cfg.options && OwnLongName(cfg, name)
    ensures var r := Parse(cfg, order, args).value;
            && r.Lookup(name).Some?
            && r.Count(name) == r.Lookup(name).value.count
            && SlotAgrees(r.Lookup(name).value, cfg.options[name], r.arguments)
  {
    hide Aliases, EmplaceAll, Consume, SlotAgrees, Owned, OwnLongName;
    var store := Consume(cfg, order, args).value.store;
    ConsumeKeepsAgreement(cfg, order, args);
    assert OptionAgrees(cfg, store, name);
    NamesResolve(cfg, order, store.parsed, name);
  }

  /** A name that is not registered is not found, and counts as never given. */
  lemma UnregisteredNameIsAbsent(cfg: Config, order: seq<string>, args: seq<string>, name: string)
    requires WellNamed(cfg) && IsOrder(cfg, order) && Parse(cfg, order, args).Success?
    requires name != "" && name !in cfg.options
    ensures var r := Parse(cfg, order, args).value; r.Lookup(name) == None && r.Count(name) == 0
  {
    hide Aliases, EmplaceAll, Consume;
    AliasesResolve(cfg, map[], order);
  }

  /** The short and the long name of an option give the same slot. */
  lemma ShortAndLongAgree(cfg: Config, order: seq<string>, args: seq<string>, name: string)
    requires WellNamed(cfg) && IsOrder(cfg, order)
    requires Parse(cfg, order, args).Success? && name in cfg.options
    requires cfg.options[name].shortName != "" && cfg.options[name].longName != ""
    ensures var r := Parse(cfg, order, args).value; var d := cfg.options[name];
            r.Lookup(d.shortName).Some? && r.Lookup(d.shortName) == r.Lookup(d.longName)
  {
    hide Aliases, EmplaceAll, Consume;
    var store := Consume(cfg, order, args).value.store;
    NamesResolve(cfg, order, store.parsed, cfg.options[name].shortName);
    NamesResolve(cfg, order, store.parsed, cfg.options[name].longName);
  }

  // ---------- what replaying texts leaves ----------

  /** The pieces of some texts, run together. */
  function AllPieces(texts: seq<string>): seq<string> {
    if texts == [] then [] else AllPieces(texts[..|texts| - 1]) + Pieces(texts[|texts| - 1])
  }

  /** A container holds one value for each piece of each text, in order. */
  lemma {:induction false} ReplayFillsContainer(of: ScalarKind, texts: seq<string>)
    ensures Replay(Vector(of), texts, Many([]))
         == var ds := ScalarsOf(of, AllPieces(texts));
            if ds.Success? then Success(Many(ds.value)) else Replay(Vector(of), texts, Many([]))
    ensures Replay(Vector(of), texts, Many([])).Success? <==> ScalarsOf(of, AllPieces(texts)).Success?
    decreases |texts|
  {
    hide ScalarsOf, Pieces;
    if texts == [] {
      assert ScalarsOf(of, []) == Success([]) by { NoScalars(of); }
    } else {
      var init, last := texts[..|texts| - 1], Pieces(texts[|texts| - 1]);
      ReplayFillsContainer(of, init);
      ScalarsConcat(of, AllPieces(init), last);
    }
  }

  lemma NoScalars(of: ScalarKind)
    ensures ScalarsOf(of, []) == Success([])
  {}

  /** A scalar holds the value of its last text; the texts before it must have values too. */
  lemma {:induction false} ReplayKeepsLast(of: ScalarKind, texts: seq<string>, start: Stored)
    ensures Replay(Scalar(of), texts, start).Success? <==> forall t | t in texts :: ScalarOf(of, t).Success?
    ensures Replay(Scalar(of), texts, start).Success? ==>
              Replay(Scalar(of), texts, start).value
              == if texts == [] then start else One(ScalarOf(of, texts[|texts| - 1]).value)
    decreases |texts|
  {
    hide ScalarOf;
    if texts != [] {
      var init, last := texts[..|texts| - 1], texts[|texts| - 1];
      ReplayKeepsLast(of, init, start);
      assert texts == init + [last];
    }
  }

  // ---------- the default mark is set by the defaults only ----------

  lemma StoreKeepsDefaultMark(store: Store, d: Details, arg: string, key: string)
    requires StoreOption(store, d, arg).Success?
    ensures Slot(StoreOption(store, d, arg).value.parsed, key).isDefault == Slot(store.parsed, key).isDefault
  {
    hide ParseInto, EnsureValue;
  }

  lemma {:induction false} ClusterKeepsDefaultMark(
    cfg: Config, store: Store, letters: string, rest: seq<string>, key: string)
    requires ParseCluster(cfg, store, letters, rest).Success?
    ensures var after := ParseCluster(cfg, store, letters, rest).value.store;
            Slot(after.parsed, key).isDefault == Slot(store.parsed, key).isDefault
    decreases |letters|
  {
    hide StoreOption;
    if letters != "" {
      var name := letters[..1];
      if name !in cfg.options {
        ClusterKeepsDefaultMark(cfg, store, letters[1..], rest, key);
      } else {
        var d := cfg.options[name];
        StoreKeepsDefaultMark(store, d, if d.hasImplicit then d.implicitText else rest[0], key);
        if |letters| > 1 {
          ClusterKeepsDefaultMark(cfg, StoreOption(store, d, d.implicitText).value, letters[1..], rest, key);
        }
      }
    }
  }

  lemma StepKeepsDefaultMark(cfg: Config, st: State, tokens: seq<string>, key: string)
    requires tokens != [] && tokens[0] != "--" && Step(cfg, st, tokens).Success?
    ensures var after := Step(cfg, st, tokens).value.state.store;
            Slot(after.parsed, key).isDefault == Slot(st.store.parsed, key).isDefault
  {
    hide StoreOption, ParseCluster, ConsumePositional, Classify;
    match Classify(tokens[0])
    case Cluster(letters) => ClusterKeepsDefaultMark(cfg, st.store, letters, tokens[1..], key);
    case LongWithValue(name, text) =>
      if name in cfg.options {
        StoreKeepsDefaultMark(st.store, cfg.options[name], text, key);
      }
    case Long(name) =>
      if name in cfg.options {
        var d := cfg.options[name];
        StoreKeepsDefaultMark(st.store, d, if d.hasImplicit then d.implicitText else tokens[1], key);
      }
    case _ => ConsumeKeepsDefaultMark(cfg, st.store, st.next, tokens[0], key);
  }

  lemma {:induction false} LoopKeepsDefaultMark(cfg: Config, st: State, tokens: seq<string>, key: string)
    requires Loop(cfg, st, tokens).Success?
    ensures Slot(Loop(cfg, st, tokens).value.state.store.parsed, key).isDefault == Slot(st.store.parsed, key).isDefault
    decreases |tokens|
  {
    hide Step;
    if tokens != [] && tokens[0] != "--" {
      StepKeepsDefaultMark(cfg, st, tokens, key);
      var m := Step(cfg, st, tokens).value;
      LoopKeepsDefaultMark(cfg, m.state, tokens[m.width..], key);
    }
  }

  lemma {:induction false} ConsumeKeepsDefaultMark(cfg: Config, store: Store, next: nat, token: string, key: string)
    requires ConsumePositional(cfg, store, next, token).Success?
    ensures var after := ConsumePositional(cfg, store, next, token).value.store;
            Slot(after.parsed, key).isDefault == Slot(store.parsed, key).isDefault
    decreases |cfg.positional| - next
  {
    hide ParseInto;
    if next < |cfg.positional| {
      var d := cfg.options[cfg.positional[next]];
      if !d.kind.Vector? && Slot(store.parsed, d.Key()).count != 0 {
        ConsumeKeepsDefaultMark(cfg, store, next + 1, token, key);
      }
    }
  }

  lemma {:induction false} RestKeepsDefaultMark(cfg: Config, st: State, tokens: seq<string>, key: string)
    requires TakeRest(cfg, st, tokens).Success?
    ensures Slot(TakeRest(cfg, st, tokens).value.store.parsed, key).isDefault == Slot(st.store.parsed, key).isDefault
    decreases |tokens|
  {
    hide ConsumePositional;
    if tokens != [] {
      ConsumeKeepsDefaultMark(cfg, st.store, st.next, tokens[0], key);
      var t := ConsumePositional(cfg, st.store, st.next, tokens[0]).value;
      if t.accepted {
        RestKeepsDefaultMark(cfg, State(t.store, t.next, st.unmatched), tokens[1..], key);
      }
    }
  }

  /** `has_default()` says that the option declares a default and was not given by the main loop; in
      a run without `--`, that it was never given. */
  lemma DefaultMeansNotGiven(cfg: Config, order: seq<string>, args: seq<string>, name: string)
    requires DistinctKeys(cfg) && WellNamed(cfg) && IsOrder(cfg, order)
    requires Parse(cfg, order, args).Success? && name in cfg.options
    ensures var r := Parse(cfg, order, args).value; var d := cfg.options[name];
            var ended := Loop(cfg, START, args).value;
            && r.Lookup(name).Some?
            && (r.Lookup(name).value.isDefault <==>
                d.hasDefault && Slot(ended.state.store.parsed, d.Key()).count == 0)
            && (ended.rest.None? ==>
                  (r.Lookup(name).value.isDefault <==> d.hasDefault && r.Count(name) == 0))
  {
    hide Loop, ApplyDefaults, TakeRest, Aliases, EmplaceAll, Agrees, EnsureValue, ParseInto;
    var ended, key := Loop(cfg, START, args).value, cfg.options[name].Key();
    LoopKeepsDefaultMark(cfg, START, args, key);
    var store := ApplyDefaults(cfg, ended.state.store, order).value;
    DefaultMark(cfg, ended.state.store, order, name);
    NamesResolve(cfg, order, Consume(cfg, order, args).value.store.parsed, name);
    if ended.rest.Some? {
      RestKeepsDefaultMark(cfg, ended.state.(store := store), ended.rest.value, key);
    }
  }

  lemma DefaultMark(cfg: Config, store: Store, order: seq<string>, name: string)
    requires DistinctKeys(cfg) && IsOrder(cfg, order) && name in cfg.options
    requires !Slot(store.parsed, cfg.options[name].Key()).isDefault && ApplyDefaults(cfg, store, order).Success?
    ensures var before := Slot(store.parsed, cfg.options[name].Key());
            var after := Slot(ApplyDefaults(cfg, store, order).value.parsed, cfg.options[name].Key());
            after.count == before.count && (after.isDefault <==> cfg.options[name].hasDefault && before.count == 0)
  {
    hide ApplyDefaults, EnsureValue, ParseInto;
    DefaultsArePointwise(cfg, store, order);
    assert name in order;
    var i :| 0 <= i < |order| && order[i] == name;
  }

  /** With `--` the two can meet: a container takes its default first and then the token after `--`,
      so it is both defaulted and counted, and holds the items of both. */
  lemma DefaultThenValueAfterSeparator(d: Details, token: string)
    requires d.kind == Vector(Text) && d.hasDefault && IsLongName(d.longName) && d.shortName == ""
    requires d.defaultText == "a" && token == "b"
    ensures var cfg := Config(map[d.longName := d], [d.longName], false);
            && AllRegistered(cfg, [d.longName])
            && var r := Parse(cfg, [d.longName], ["--", token]);
            && r.Success?
            && r.value.Lookup(d.longName)
               == Some(OptionValue(Some(Storage(d, Many([TextDatum("a"), TextDatum("b")]))), 1, true))
  {
    hide ParseInto, ScalarsOf, Pieces;
    var cfg, order := Config(map[d.longName := d], [d.longName], false), [d.longName];
    assert d.Key() == d.longName && order[1..] == [] && ["--", token][1..] == [token] && [token][1..] == [];
    OnePiece("a");
    OnePiece("b");
    var one, both := Many([TextDatum("a")]), Many([TextDatum("a"), TextDatum("b")]);
    var defaulted := Store(map[d.longName := OptionValue(Some(Storage(d, one)), 0, true)], []);
    assert ApplyDefaults(cfg, NOTHING, order) == Success(defaulted) by {
      assert ApplyDefault(NOTHING, d) == Success(defaulted);
    }
    var slot := OptionValue(Some(Storage(d, both)), 1, true);
    var final := Store(map[d.longName := slot], [KeyValue(d.longName, "b")]);
    assert StoreOption(defaulted, d, token) == Success(final) by {
      assert defaulted.parsed[d.longName := slot] == final.parsed;
      assert defaulted.log + [KeyValue(d.longName, "b")] == final.log;
    }
    assert TakeRest(cfg, State(defaulted, 0, []), [token]) == Success(State(final, 0, []));
    assert Consume(cfg, order, ["--", token]) == Success(State(final, 0, []));
    assert IsOrder(cfg, order) by { assert order[0] == d.longName; }
    NamesResolve(cfg, order, final.parsed, d.longName);
  }

  lemma OnePiece(text: string)
    requires text == "a" || text == "b"
    ensures ParseInto(Vector(Text), text, Many([])) == Success(Many([TextDatum(text)]))
    ensures ParseInto(Vector(Text), text, Many([TextDatum("a")])) == Success(Many([TextDatum("a"), TextDatum(text)]))
  {
    assert Pieces(text) == [text];
    assert [text][1..] == [];
    assert [TextDatum(text)] + [] == [TextDatum(text)];
    assert ScalarsOf(Text, [text]) == Success([TextDatum(text)]);
    assert [] + [TextDatum(text)] == [TextDatum(text)];
    assert [TextDatum("a")] + [TextDatum(text)] == [TextDatum("a"), TextDatum(text)];
  }

  lemma OrderIsRegistered(cfg: Config, order: seq<string>)
    requires IsOrder(cfg, order)
    ensures AllRegistered(cfg, order)
  {}

  lemma DefaultsIgnoreOrder(cfg: Config, store: Store, order: seq<string>, order': seq<string>)
    requires DistinctKeys(cfg)
    requires IsOrder(cfg, order) && IsOrder(cfg, order')
    ensures ApplyDefaults(cfg, store, order).Success? ==>
              ApplyDefaults(cfg, store, order') == ApplyDefaults(cfg, store, order)
  {
    hide ApplyDefaults, DefaultedSlot, IsOrder;
    OrderIsRegistered(cfg, order);
    OrderIsRegistered(cfg, order');
    if ApplyDefaults(cfg, store, order).Success? {
      DefaultsArePointwise(cfg, store, order);
      DefaultsArePointwise(cfg, store, order');
      forall i | 0 <= i < |order'|
        ensures DefaultedSlot(cfg.options[order'[i]], Slot(store.parsed, cfg.options[order'[i]].Key())).Success?
      {
        var j := SamePlace(cfg, order', order, i);
      }
      var p, p' := ApplyDefaults(cfg, store, order).value.parsed, ApplyDefaults(cfg, store, order').value.parsed;
      forall key ensures key in p <==> key in p' {
        VisitedInAnyOrder(cfg, order, order', key);
      }
      forall key | key in p ensures p[key] == p'[key] {
        VisitedInAnyOrder(cfg, order, order', key);
        if Visited(cfg, order, key) {
          var i :| 0 <= i < |order| && cfg.options[order[i]].Key() == key;
          var j := SamePlace(cfg, order, order', i);
          assert Slot(p, key) == Slot(p', key);
        } else {
          assert Slot(p, key) == Slot(store.parsed, key) == Slot(p', key);
        }
      }
      assert p == p';
    }
  }

  lemma SamePlace(cfg: Config, order: seq<string>, order': seq<string>, i: nat) returns (j: nat)
    requires IsOrder(cfg, order) && IsOrder(cfg, order') && i < |order|
    ensures j < |order'| && order'[j] == order[i]
  {
    assert order[i] in order';
    j :| 0 <= j < |order'| && order'[j] == order[i];
  }

  lemma VisitedInAnyOrder(cfg: Config, order: seq<string>, order': seq<string>, key: string)
    requires IsOrder(cfg, order) && IsOrder(cfg, order')
    ensures Visited(cfg, order, key) <==> Visited(cfg, order', key)
  {
    if Visited(cfg, order, key) {
      var i :| 0 <= i < |order| && cfg.options[order[i]].Key() == key;
      var j := SamePlace(cfg, order, order', i);
    }
    if Visited(cfg, order', key) {
      var i :| 0 <= i < |order'| && cfg.options[order'[i]].Key() == key;
      var j := SamePlace(cfg, order', order, i);
    }
  }

  lemma EmplaceIgnoresOrder(
    cfg: Config, parsed: map<string, OptionValue>, order: seq<string>, order': seq<string>)
    requires IsOrder(cfg, order) && IsOrder(cfg, order')
    ensures EmplaceAll(cfg, parsed, order) == EmplaceAll(cfg, parsed, order')
  {
    hide EmplaceAll;
    EmplaceIsPointwise(cfg, parsed, order);
    EmplaceIsPointwise(cfg, parsed, order');
    var p, p' := EmplaceAll(cfg, parsed, order), EmplaceAll(cfg, parsed, order');
    forall key ensures key in p <==> key in p' {
      VisitedInAnyOrder(cfg, order, order', key);
    }
    forall key | key in p ensures p[key] == p'[key] {
      assert Slot(p, key) == Slot(p', key);
    }
  }

  /** The order in which the option map is iterated does not matter: whether the parse succeeds, its
      log, its values, its unmatched tokens, and every lookup by a registered name. */
  lemma IterationOrderIsIrrelevant(
    cfg: Config, order: seq<string>, order': seq<string>, args: seq<string>, name: string)
    requires DistinctKeys(cfg) && WellNamed(cfg) && name in cfg.options
    requires IsOrder(cfg, order) && IsOrder(cfg, order')
    ensures Parse(cfg, order, args).Success? <==> Parse(cfg, order', args).Success?
    ensures Parse(cfg, order, args).Success? ==>
            var r, r' := Parse(cfg, order, args).value, Parse(cfg, order', args).value;
            && r.values == r'.values && r.arguments == r'.arguments && r.unmatched == r'.unmatched
            && r.Lookup(name) == r'.Lookup(name) && r.Count(name) == r'.Count(name)
  {
    hide Loop, ApplyDefaults, TakeRest, Aliases, EmplaceAll, IsOrder, DistinctKeys, WellNamed;
    OrderIsRegistered(cfg, order);
    OrderIsRegistered(cfg, order');
    var ended := Loop(cfg, START, args);
    if ended.Success? {
      DefaultsIgnoreOrder(cfg, ended.value.state.store, order, order');
      DefaultsIgnoreOrder(cfg, ended.value.state.store, order', order);
    }
    var st := Consume(cfg, order, args);
    if st.Success? {
      var parsed := st.value.store.parsed;
      EmplaceIgnoresOrder(cfg, parsed, order, order');
      NamesResolve(cfg, order, parsed, name);
      NamesResolve(cfg, order', parsed, name);
    }
  }
}
