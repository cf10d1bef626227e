/** What parsing a command line means: the parser's state, the effect of one token on it, and the
    four phases of a parse (main loop, defaults, tokens after `--`, aliases).

    A hash table keyed by `std::hash(long + short)` is a map keyed by `long + short` itself. */
module OptionParsing {
  import opened Outcomes
  import opened OptionSyntax
  import opened OptionValues

  /** A registered option. */
  datatype Details = Details(
    shortName: string, longName: string, kind: Kind,
    hasDefault: bool, defaultText: string, hasImplicit: bool, implicitText: string)
  {
    function Key(): string {
      longName + shortName
    }
  }

  /** The options by name (an option with two names is in the map twice), the names that take
      positional tokens, and whether unknown flags are let through. */
  datatype Config = Config(options: map<string, Details>, positional: seq<string>, lenient: bool)

  /** A value cloned from an option; it keeps the option's type and default text. */
  datatype Storage = Storage(owner: Details, value: Stored)

  datatype OptionValue = OptionValue(storage: Option<Storage>, count: nat, isDefault: bool)

  const UNSET := OptionValue(None, 0, false)

  datatype KeyValue = KeyValue(key: string, value: string)

  /** `m_parsed` and `m_sequential`. */
  datatype Store = Store(parsed: map<string, OptionValue>, log: seq<KeyValue>)

  const NOTHING := Store(map[], [])

  function Slot(parsed: map<string, OptionValue>, key: string): OptionValue {
    if key in parsed then parsed[key] else UNSET
  }

  /** The storage of a slot, created on first use. */
  function EnsureValue(slot: OptionValue, d: Details): Storage {
    if slot.storage.Some? then slot.storage.value else Storage(d, Initial(d.kind))
  }

  /** `parse_option`: give the option one value and log it. */
  ghost function StoreOption(store: Store, d: Details, arg: string): Result<Store, Error> {
    var slot := Slot(store.parsed, d.Key());
    var storage := EnsureValue(slot, d);
    var v :- ParseInto(storage.owner.kind, arg, storage.value);
    Success(Store(
      store.parsed[d.Key() := OptionValue(Some(Storage(storage.owner, v)), slot.count + 1, slot.isDefault)],
      store.log + [KeyValue(d.longName, arg)]))
  }

  /** `parse_default`: give the option its default, which is neither counted nor logged. */
  ghost function StoreDefault(store: Store, d: Details): Result<Store, Error> {
    var slot := Slot(store.parsed, d.Key());
    var storage := EnsureValue(slot, d);
    var v :- ParseInto(storage.owner.kind, storage.owner.defaultText, storage.value);
    Success(store.(parsed :=
      store.parsed[d.Key() := OptionValue(Some(Storage(storage.owner, v)), slot.count, true)]))
  }

  /** A store, and how many of the tokens after the flag went into it. */
  datatype Advance = Advance(store: Store, used: nat)

  /** `checked_parse_arg`: a flag without an attached value, followed by `rest`. */
  ghost function CheckedParseArg(store: Store, d: Details, name: string, rest: seq<string>)
    : (r: Result<Advance, Error>)
    ensures r.Success? ==> r.value.used == if d.hasImplicit then 0 else 1
    ensures r.Success? ==> r.value.used <= |rest|
  {
    if d.hasImplicit then
      var s :- StoreOption(store, d, d.implicitText);
      Success(Advance(s, 0))
    else if rest == [] then
      Failure(MissingArgument(name))
    else
      var s :- StoreOption(store, d, rest[0]);
      Success(Advance(s, 1))
  }

  /** A token `-letters`, followed by `rest`. */
  ghost function ParseCluster(cfg: Config, store: Store, letters: string, rest: seq<string>)
    : (r: Result<Advance, Error>)
    ensures r.Success? ==> r.value.used <= 1 && r.value.used <= |rest|
    decreases |letters|
  {
    if letters == "" then
      Success(Advance(store, 0))
    else
      var name := letters[..1];
      if name !in cfg.options then
        if cfg.lenient then ParseCluster(cfg, store, letters[1..], rest)
        else Failure(OptionNotExists(name))
      else if |letters| == 1 then
        CheckedParseArg(store, cfg.options[name], name, rest)
      else if cfg.options[name].hasImplicit then
        var s :- StoreOption(store, cfg.options[name], cfg.options[name].implicitText);
        ParseCluster(cfg, s, letters[1..], rest)
      else
        Failure(RequiresArgument(name))
  }

  /** What became of a positional token, and where the positional cursor stands now. */
  datatype Taken = Taken(store: Store, next: nat, accepted: bool)

  ghost function ConsumePositional(cfg: Config, store: Store, next: nat, token: string)
    : (r: Result<Taken, Error>)
    ensures r.Success? && next <= |cfg.positional| ==> next <= r.value.next <= |cfg.positional|
    decreases |cfg.positional| - next
  {
    if next >= |cfg.positional| then
      Success(Taken(store, next, false))
    else if cfg.positional[next] !in cfg.options then
      Failure(OptionNotExists(cfg.positional[next]))
    else
      var d := cfg.options[cfg.positional[next]];
      if d.kind.Vector? then
        var s :- StoreOption(store, d, token);
        Success(Taken(s, next, true))
      else if Slot(store.parsed, d.Key()).count == 0 then
        var s :- StoreOption(store, d, token);
        Success(Taken(s, next + 1, true))
      else
        ConsumePositional(cfg, store, next + 1, token)
  }

  /** The state of the main loop, without the position in argv. */
  datatype State = State(store: Store, next: nat, unmatched: seq<string>)

  const START := State(NOTHING, 0, [])

  /** A state, and how far the loop moved along argv. */
  datatype Move = Move(state: State, width: nat)

  /** One turn of the main loop at a token other than `--`. */
  ghost function Step(cfg: Config, st: State, tokens: seq<string>): (r: Result<Move, Error>)
    requires tokens != [] && tokens[0] != "--"
    ensures r.Success? ==> 1 <= r.value.width <= 2 && r.value.width <= |tokens|
  {
    match Classify(tokens[0])
    case Cluster(letters) =>
      var a :- ParseCluster(cfg, st.store, letters, tokens[1..]);
      Success(Move(st.(store := a.store), 1 + a.used))
    case LongWithValue(name, text) =>
      if name in cfg.options then
        var s :- StoreOption(st.store, cfg.options[name], text);
        Success(Move(st.(store := s), 1))
      else if cfg.lenient then Success(Move(st.(unmatched := st.unmatched + [tokens[0]]), 1))
      else Failure(OptionNotExists(name))
    case Long(name) =>
      if name in cfg.options then
        var a :- CheckedParseArg(st.store, cfg.options[name], name, tokens[1..]);
        Success(Move(st.(store := a.store), 1 + a.used))
      else if cfg.lenient then Success(Move(st.(unmatched := st.unmatched + [tokens[0]]), 1))
      else Failure(OptionNotExists(name))
    case _ =>
      if "-" <= tokens[0] && tokens[0] != "-" && !cfg.lenient then
        Failure(OptionSyntaxError(tokens[0]))
      else
        var t :- ConsumePositional(cfg, st.store, st.next, tokens[0]);
        Success(Move(
          State(t.store, t.next, if t.accepted then st.unmatched else st.unmatched + [tokens[0]]), 1))
  }

  /** How the main loop ended: with the tokens after `--` still to come, if it met one. */
  datatype Ended = Ended(state: State, rest: Option<seq<string>>)

  ghost function Loop(cfg: Config, st: State, tokens: seq<string>): Result<Ended, Error>
    decreases |tokens|
  {
    if tokens == [] then Success(Ended(st, None))
    else if tokens[0] == "--" then Success(Ended(st, Some(tokens[1..])))
    else
      var m :- Step(cfg, st, tokens);
      Loop(cfg, m.state, tokens[m.width..])
  }

  predicate AllRegistered(cfg: Config, names: seq<string>) {
    forall i | 0 <= i < |names| :: names[i] in cfg.options
  }

  /** `order` lists the registered names, each once: an iteration order of the option map. */
  ghost predicate IsOrder(cfg: Config, order: seq<string>) {
    && AllRegistered(cfg, order)
    && (forall k | k in cfg.options :: k in order)
    && (forall i, j | 0 <= i < j < |order| :: order[i] != order[j])
  }

  ghost function ApplyDefault(store: Store, d: Details): Result<Store, Error> {
    var slot := Slot(store.parsed, d.Key());
    if d.hasDefault && slot.count == 0 && !slot.isDefault then StoreDefault(store, d)
    else Success(store.(parsed := store.parsed[d.Key() := slot]))
  }

  ghost function ApplyDefaults(cfg: Config, store: Store, names: seq<string>): Result<Store, Error>
    requires AllRegistered(cfg, names)
    decreases |names|
  {
    if names == [] then Success(store)
    else
      var s :- ApplyDefault(store, cfg.options[names[0]]);
      ApplyDefaults(cfg, s, names[1..])
  }

  /** The tokens after `--`: positional until one is refused, unmatched from there on. */
  ghost function TakeRest(cfg: Config, st: State, tokens: seq<string>): Result<State, Error>
    decreases |tokens|
  {
    if tokens == [] then Success(st)
    else
      var t :- ConsumePositional(cfg, st.store, st.next, tokens[0]);
      if t.accepted then TakeRest(cfg, State(t.store, t.next, st.unmatched), tokens[1..])
      else Success(State(t.store, t.next, st.unmatched + tokens))
  }

  function Aliases(cfg: Config, keys: map<string, string>, names: seq<string>): map<string, string>
    requires AllRegistered(cfg, names)
    decreases |names|
  {
    if names == [] then keys
    else
      var d := cfg.options[names[0]];
      Aliases(cfg, keys[d.shortName := d.Key()][d.longName := d.Key()], names[1..])
  }

  function EmplaceAll(cfg: Config, parsed: map<string, OptionValue>, names: seq<string>)
    : map<string, OptionValue>
    requires AllRegistered(cfg, names)
    decreases |names|
  {
    if names == [] then parsed
    else
      var key := cfg.options[names[0]].Key();
      EmplaceAll(cfg, parsed[key := Slot(parsed, key)], names[1..])
  }

  datatype ParseResult = ParseResult(
    keys: map<string, string>, values: map<string, OptionValue>,
    arguments: seq<KeyValue>, unmatched: seq<string>)
  {
    function Count(name: string): nat {
      if name in keys && keys[name] in values then values[keys[name]].count else 0
    }

    /** `operator[]`; absent stands for the exception. */
    function Lookup(name: string): Option<OptionValue> {
      if name in keys && keys[name] in values then Some(values[keys[name]]) else None
    }
  }

  /** The state when all tokens have been dealt with. */
  ghost function Consume(cfg: Config, order: seq<string>, args: seq<string>): Result<State, Error>
    requires AllRegistered(cfg, order)
  {
    var ended :- Loop(cfg, START, args);
    var store :- ApplyDefaults(cfg, ended.state.store, order);
    if ended.rest.None? then Success(ended.state.(store := store))
    else TakeRest(cfg, ended.state.(store := store), ended.rest.value)
  }

  /** `OptionParser::parse`, on the arguments after the program name. */
  ghost function Parse(cfg: Config, order: seq<string>, args: seq<string>): Result<ParseResult, Error>
    requires AllRegistered(cfg, order)
  {
    var st :- Consume(cfg, order, args);
    Success(ParseResult(Aliases(cfg, map[], order), EmplaceAll(cfg, st.store.parsed, order),
                        st.store.log, st.unmatched))
  }
}
