/** The logger's sinks over a whole run: callbacks that come and go, nested log scopes that indent
    them, and the cached verbosity cutoff that the logging macros test. */
module LogSinks {
  import opened Outcomes

  const OFF: int := -9
  const FATAL: int := -3
  const ERROR: int := -2

  const MAX_INDENTATIONS: nat := 100
  const INDENTATION_WIDTH: nat := 4

  /** The width of `indentation(depth)`. */
  function Columns(depth: nat): nat {
    INDENTATION_WIDTH * if depth < MAX_INDENTATIONS then depth else MAX_INDENTATIONS
  }

  datatype Mark = Open | Close | Plain

  /** A line as a sink gets it: `{`, `}` or a message, and how far it is indented. */
  datatype Line = Line(mark: Mark, columns: nat)

  /** A registered callback.  `born` is the time it was registered, and `lines` what it was sent. */
  datatype Sink = Sink(id: string, verbosity: int, indentation: nat, born: nat, lines: seq<Line>)

  /** An open scope.  It is inactive when it passed no cutoff, and remembers if it indented stderr. */
  datatype Scope = Scope(verbosity: int, active: bool, indentStderr: bool, born: nat)

  datatype State = State(
    sinks: seq<Sink>, maxOut: int, stderrVerbosity: int, stderrIndentation: nat,
    stderr: seq<Line>, scopes: seq<Scope>, clock: nat)

  datatype Event =
    | OpenScope(verbosity: int)
    | CloseScope
    | Log(verbosity: int)
    | AddCallback(id: string, verbosity: int)
    | RemoveCallback(id: string)
    | RemoveAllCallbacks
    | SetStderrVerbosity(verbosity: int)

  // ---------- one event ----------

  function Max(a: int, b: int): int {
    if a < b then b else a
  }

  /** `on_callback_change` */
  function MaxVerbosity(sinks: seq<Sink>): int {
    if sinks == [] then OFF else Max(MaxVerbosity(sinks[..|sinks| - 1]), sinks[|sinks| - 1].verbosity)
  }

  /** `current_verbosity_cutoff` */
  function Cutoff(st: State): int {
    if st.stderrVerbosity > st.maxOut then st.stderrVerbosity else st.maxOut
  }

  function Deliver(p: Sink, v: int, mark: Mark): Sink {
    if v <= p.verbosity then p.(lines := p.lines + [Line(mark, Columns(p.indentation))]) else p
  }

  function Indent(p: Sink, v: int): Sink {
    if v <= p.verbosity then p.(indentation := p.indentation + 1) else p
  }

  function Dedent(p: Sink, v: int): Sink {
    if v <= p.verbosity && p.indentation > 0 then p.(indentation := p.indentation - 1) else p
  }

  function DeliverAll(sinks: seq<Sink>, v: int, mark: Mark): seq<Sink> {
    seq(|sinks|, i requires 0 <= i < |sinks| => Deliver(sinks[i], v, mark))
  }

  function IndentAll(sinks: seq<Sink>, v: int): seq<Sink> {
    seq(|sinks|, i requires 0 <= i < |sinks| => Indent(sinks[i], v))
  }

  function DedentAll(sinks: seq<Sink>, v: int): seq<Sink> {
    seq(|sinks|, i requires 0 <= i < |sinks| => Dedent(sinks[i], v))
  }

  /** `log_message`, for a message that does not abort the program. */
  function Emit(st: State, v: int, mark: Mark): State {
    st.(sinks := DeliverAll(st.sinks, v, mark),
        stderr := if v <= st.stderrVerbosity then st.stderr + [Line(mark, Columns(st.stderrIndentation))]
                  else st.stderr)
  }

  /** `VLOG_F` */
  function GuardedEmit(st: State, v: int): State {
    if v > Cutoff(st) then st else Emit(st, v, Plain)
  }

  /** The position of the first sink with an id, or the number of sinks. */
  function FindSink(sinks: seq<Sink>, id: string): (i: nat)
    ensures i <= |sinks|
    ensures forall j | 0 <= j < i :: sinks[j].id != id
    ensures i < |sinks| ==> sinks[i].id == id
  {
    if sinks == [] || sinks[0].id == id then 0 else 1 + FindSink(sinks[1..], id)
  }

  /** A close needs an open scope, and a fatal message ends the program. */
  predicate Enabled(st: State, e: Event) {
    match e
    case OpenScope(v) => v != FATAL
    case Log(v) => v != FATAL
    case CloseScope => st.scopes != []
    case _ => true
  }

  function Opened(st: State, v: int): State {
    if v <= Cutoff(st) then
      var toStderr := v <= st.stderrVerbosity;
      var said := Emit(st, v, Open);
      said.(stderrIndentation := if toStderr then said.stderrIndentation + 1 else said.stderrIndentation,
            sinks := IndentAll(said.sinks, v),
            scopes := st.scopes + [Scope(v, true, toStderr, st.clock)])
    else
      st.(scopes := st.scopes + [Scope(v, false, false, st.clock)])
  }

  function Closed(st: State): State
    requires st.scopes != []
  {
    var scope := st.scopes[|st.scopes| - 1];
    var popped := st.(scopes := st.scopes[..|st.scopes| - 1]);
    if !scope.active then popped
    else
      var dedented := popped.(
        stderrIndentation :=
          if scope.indentStderr && st.stderrIndentation > 0 then st.stderrIndentation - 1 else st.stderrIndentation,
        sinks := DedentAll(st.sinks, scope.verbosity));
      Emit(dedented, scope.verbosity, Close)
  }

  function Removed(st: State, id: string): State {
    var i := FindSink(st.sinks, id);
    if i < |st.sinks| then
      var sinks := st.sinks[..i] + st.sinks[i + 1..];
      st.(sinks := sinks, maxOut := MaxVerbosity(sinks))
    else GuardedEmit(st, ERROR)
  }

  /** What an event does, apart from passing time. */
  function Effect(st: State, e: Event): State
    requires Enabled(st, e)
  {
    match e
    case OpenScope(v) => Opened(st, v)
    case CloseScope => Closed(st)
    case Log(v) => GuardedEmit(st, v)
    case AddCallback(id, v) =>
      var sinks := st.sinks + [Sink(id, v, 0, st.clock, [])];
      st.(sinks := sinks, maxOut := MaxVerbosity(sinks))
    case RemoveCallback(id) => Removed(st, id)
    case RemoveAllCallbacks => st.(sinks := [], maxOut := OFF)
    case SetStderrVerbosity(v) => st.(stderrVerbosity := v)
  }

  function Step(st: State, e: Event): State
    requires Enabled(st, e)
  {
    Effect(st, e).(clock := st.clock + 1)
  }

  function Initial(stderrVerbosity: int): State {
    State([], OFF, stderrVerbosity, 0, [], [], 0)
  }

  // ---------- runs ----------

  /** The state after some events, if each of them is enabled when it comes. */
  function Run(st: State, events: seq<Event>): Option<State>
    decreases |events|
  {
    if events == [] then Some(st)
    else
      var before := Run(st, events[..|events| - 1]);
      if before.Some? && Enabled(before.value, events[|events| - 1])
      then Some(Step(before.value, events[|events| - 1]))
      else None
  }

  // ---------- the invariant ----------

  /** How many of the open scopes were opened after `born` at a verbosity up to `verbosity`. */
  function ScopesSince(scopes: seq<Scope>, born: nat, verbosity: int): nat {
    if scopes == [] then 0
    else
      var last := scopes[|scopes| - 1];
      ScopesSince(scopes[..|scopes| - 1], born, verbosity)
      + if last.born > born && last.verbosity <= verbosity then 1 else 0
  }

  /** How many of the open scopes indented stderr. */
  function StderrScopes(scopes: seq<Scope>): nat {
    if scopes == [] then 0
    else StderrScopes(scopes[..|scopes| - 1]) + if scopes[|scopes| - 1].indentStderr then 1 else 0
  }

  /** How many `{` in a sink's own output have no `}` yet. */
  function Unclosed(lines: seq<Line>): nat {
    if lines == [] then 0
    else
      var before := Unclosed(lines[..|lines| - 1]);
      match lines[|lines| - 1].mark
      case Open => before + 1
      case Close => if before > 0 then before - 1 else 0
      case Plain => before
  }

  /** How many braces enclose the `k`th line; a closing brace stands outside its own pair. */
  function Enclosing(lines: seq<Line>, k: nat): nat
    requires k < |lines|
  {
    if lines[k].mark.Close? then Unclosed(lines[..k + 1]) else Unclosed(lines[..k])
  }

  /** Every line is indented by the braces that enclose it in the sink's own output. */
  ghost predicate IndentedByBraces(lines: seq<Line>) {
    forall k | 0 <= k < |lines| :: lines[k].columns == Columns(Enclosing(lines, k))
  }

  ghost predicate SinkInv(p: Sink, scopes: seq<Scope>, clock: nat) {
    && p.born < clock
    && p.indentation == ScopesSince(scopes, p.born, p.verbosity)
    && p.indentation == Unclosed(p.lines)
    && IndentedByBraces(p.lines)
    && (forall i | 0 <= i < |scopes| && scopes[i].born > p.born && scopes[i].verbosity <= p.verbosity ::
          scopes[i].active)
  }

  ghost predicate ScopesInv(scopes: seq<Scope>, clock: nat) {
    && (forall i | 0 <= i < |scopes| :: scopes[i].born < clock)
    && (forall i, j | 0 <= i < j < |scopes| :: scopes[i].born < scopes[j].born)
    && (forall i | 0 <= i < |scopes| && scopes[i].indentStderr :: scopes[i].active)
  }

  ghost predicate SinksInv(sinks: seq<Sink>, scopes: seq<Scope>, clock: nat) {
    && (forall i | 0 <= i < |sinks| :: SinkInv(sinks[i], scopes, clock))
    && (forall i, j | 0 <= i < j < |sinks| :: sinks[i].born < sinks[j].born)
  }

  ghost predicate Inv(st: State) {
    && ScopesInv(st.scopes, st.clock)
    && SinksInv(st.sinks, st.scopes, st.clock)
    && st.maxOut == MaxVerbosity(st.sinks)
    && st.stderrIndentation == StderrScopes(st.scopes)
  }

  lemma {:induction false} MaxIsMaximum(sinks: seq<Sink>)
    ensures MaxVerbosity(sinks) >= OFF
    ensures forall i | 0 <= i < |sinks| :: sinks[i].verbosity <= MaxVerbosity(sinks)
    ensures MaxVerbosity(sinks) == OFF || exists i | 0 <= i < |sinks| :: sinks[i].verbosity == MaxVerbosity(sinks)
  {
    if sinks != [] {
      MaxIsMaximum(sinks[..|sinks| - 1]);
    }
  }

  lemma {:induction false} MaxOfVerbosities(a: seq<Sink>, b: seq<Sink>)
    requires |a| == |b| && forall i | 0 <= i < |a| :: a[i].verbosity == b[i].verbosity
    ensures MaxVerbosity(a) == MaxVerbosity(b)
  {
    if a != [] {
      MaxOfVerbosities(a[..|a| - 1], b[..|b| - 1]);
    }
  }

  lemma SinceAppend(scopes: seq<Scope>, s: Scope, born: nat, verbosity: int)
    ensures ScopesSince(scopes + [s], born, verbosity)
         == ScopesSince(scopes, born, verbosity) + if s.born > born && s.verbosity <= verbosity then 1 else 0
    ensures StderrScopes(scopes + [s]) == StderrScopes(scopes) + if s.indentStderr then 1 else 0
  {
    assert (scopes + [s])[..|scopes|] == scopes;
  }

  lemma {:induction false} NoneSince(scopes: seq<Scope>, born: nat, verbosity: int)
    requires forall i | 0 <= i < |scopes| :: scopes[i].born <= born
    ensures ScopesSince(scopes, born, verbosity) == 0
  {
    if scopes != [] {
      NoneSince(scopes[..|scopes| - 1], born, verbosity);
    }
  }

  lemma UnclosedAppend(lines: seq<Line>, line: Line)
    ensures Unclosed(lines + [line])
         == match line.mark
            case Open => Unclosed(lines) + 1
            case Close => if Unclosed(lines) > 0 then Unclosed(lines) - 1 else 0
            case Plain => Unclosed(lines)
  {
    assert (lines + [line])[..|lines|] == lines;
  }

  lemma IndentedAppend(lines: seq<Line>, line: Line)
    requires IndentedByBraces(lines)
    requires line.columns == Columns(if line.mark.Close? then Unclosed(lines + [line]) else Unclosed(lines))
    ensures IndentedByBraces(lines + [line])
  {
    hide Columns, Unclosed;
    var longer := lines + [line];
    forall k | 0 <= k < |longer| ensures longer[k].columns == Columns(Enclosing(longer, k)) {
      if k < |lines| {
        assert longer[..k] == lines[..k] && longer[..k + 1] == lines[..k + 1];
        assert Enclosing(longer, k) == Enclosing(lines, k);
      } else {
        assert longer[..k] == lines && longer[..k + 1] == longer && longer[k] == line;
      }
    }
  }

  // ---------- every event keeps the invariant ----------

  lemma SinkSeesOpen(p: Sink, scopes: seq<Scope>, s: Scope, clock: nat)
    requires SinkInv(p, scopes, clock) && s.born == clock && (s.verbosity <= p.verbosity ==> s.active)
    ensures SinkInv(Indent(Deliver(p, s.verbosity, Open), s.verbosity), scopes + [s], clock + 1)
  {
    hide Columns, IndentedByBraces, ScopesSince;
    SinceAppend(scopes, s, p.born, p.verbosity);
    var line := Line(Open, Columns(p.indentation));
    UnclosedAppend(p.lines, line);
    IndentedAppend(p.lines, line);
  }

  lemma SinkMissesScope(p: Sink, scopes: seq<Scope>, s: Scope, clock: nat)
    requires SinkInv(p, scopes, clock) && s.born == clock && s.verbosity > p.verbosity
    ensures SinkInv(p, scopes + [s], clock + 1)
  {
    SinceAppend(scopes, s, p.born, p.verbosity);
  }

  /** Closing the innermost scope: a sink that counted it steps back, a newer sink is at zero. */
  lemma SinkSeesClose(p: Sink, scopes: seq<Scope>, s: Scope, clock: nat)
    requires ScopesInv(scopes + [s], clock) && SinkInv(p, scopes + [s], clock)
    ensures SinkInv(if s.active then Deliver(Dedent(p, s.verbosity), s.verbosity, Close) else p, scopes, clock + 1)
  {
    hide Columns, IndentedByBraces, ScopesSince;
    assert (scopes + [s])[|scopes|] == s;
    assert forall i | 0 <= i < |scopes| :: (scopes + [s])[i] == scopes[i];
    SinceAppend(scopes, s, p.born, p.verbosity);
    if s.born <= p.born {
      NoneSince(scopes, p.born, p.verbosity);
    }
    var q := Dedent(p, s.verbosity);
    var line := Line(Close, Columns(q.indentation));
    UnclosedAppend(p.lines, line);
    if s.active && s.verbosity <= p.verbosity {
      IndentedAppend(p.lines, line);
    }
  }

  lemma SinkSeesMessage(p: Sink, scopes: seq<Scope>, v: int, clock: nat)
    requires SinkInv(p, scopes, clock)
    ensures SinkInv(Deliver(p, v, Plain), scopes, clock + 1)
  {
    hide Columns, IndentedByBraces, ScopesSince;
    var line := Line(Plain, Columns(p.indentation));
    UnclosedAppend(p.lines, line);
    IndentedAppend(p.lines, line);
  }

  lemma CutoffCoversSinks(st: State, v: int)
    requires st.maxOut == MaxVerbosity(st.sinks) && v > Cutoff(st)
    ensures forall i | 0 <= i < |st.sinks| :: v > st.sinks[i].verbosity
  {
    MaxIsMaximum(st.sinks);
  }

  lemma OpenedScopesInv(scopes: seq<Scope>, s: Scope, clock: nat)
    requires ScopesInv(scopes, clock) && s.born == clock && (s.indentStderr ==> s.active)
    ensures ScopesInv(scopes + [s], clock + 1)
  {}

  lemma OpenedSinksInv(st: State, v: int)
    requires Inv(st)
    ensures var after := Opened(st, v);
            && SinksInv(after.sinks, after.scopes, st.clock + 1)
            && MaxVerbosity(after.sinks) == MaxVerbosity(st.sinks)
  {
    hide SinkInv, MaxVerbosity, Columns, ScopesInv, StderrScopes;
    var after := Opened(st, v);
    var s := after.scopes[|st.scopes|];
    if v > Cutoff(st) {
      CutoffCoversSinks(st, v);
    }
    forall i | 0 <= i < |st.sinks| ensures SinkInv(after.sinks[i], after.scopes, st.clock + 1) {
      if v <= Cutoff(st) {
        SinkSeesOpen(st.sinks[i], st.scopes, s, st.clock);
      } else {
        SinkMissesScope(st.sinks[i], st.scopes, s, st.clock);
      }
    }
    MaxOfVerbosities(st.sinks, after.sinks);
  }

  lemma OpenedKeepsInv(st: State, v: int)
    requires Inv(st)
    ensures Inv(Opened(st, v).(clock := st.clock + 1))
  {
    hide SinksInv, ScopesInv, MaxVerbosity, Columns, StderrScopes;
    var s := Opened(st, v).scopes[|st.scopes|];
    SinceAppend(st.scopes, s, 0, 0);
    OpenedScopesInv(st.scopes, s, st.clock);
    OpenedSinksInv(st, v);
  }

  lemma ClosedKeepsInv(st: State)
    requires Inv(st) && st.scopes != []
    ensures Inv(Closed(st).(clock := st.clock + 1))
  {
    hide SinkInv, MaxVerbosity, Columns, StderrScopes;
    var rest, s := st.scopes[..|st.scopes| - 1], st.scopes[|st.scopes| - 1];
    assert st.scopes == rest + [s];
    SinceAppend(rest, s, 0, 0);
    var after := Closed(st);
    forall i | 0 <= i < |st.sinks| ensures SinkInv(after.sinks[i], rest, st.clock + 1) {
      SinkSeesClose(st.sinks[i], rest, s, st.clock);
    }
    MaxOfVerbosities(st.sinks, after.sinks);
  }

  lemma EmitKeepsInv(st: State, v: int)
    requires Inv(st)
    ensures Inv(Emit(st, v, Plain).(clock := st.clock + 1))
  {
    hide SinkInv, MaxVerbosity, Columns;
    var after := Emit(st, v, Plain);
    forall i | 0 <= i < |st.sinks| ensures SinkInv(after.sinks[i], st.scopes, st.clock + 1) {
      SinkSeesMessage(st.sinks[i], st.scopes, v, st.clock);
    }
    MaxOfVerbosities(st.sinks, after.sinks);
  }

  lemma LaterIsFine(st: State)
    requires Inv(st)
    ensures Inv(st.(clock := st.clock + 1))
  {
    hide ScopesSince, Unclosed, IndentedByBraces, MaxVerbosity;
    forall i | 0 <= i < |st.sinks| ensures SinkInv(st.sinks[i], st.scopes, st.clock + 1) {
      assert SinkInv(st.sinks[i], st.scopes, st.clock);
    }
  }

  lemma AddedKeepsInv(st: State, id: string, v: int)
    requires Inv(st)
    ensures Inv(Step(st, AddCallback(id, v)))
  {
    hide MaxVerbosity, ScopesSince, Unclosed;
    LaterIsFine(st);
    var p := Sink(id, v, 0, st.clock, []);
    NoneSince(st.scopes, st.clock, v);
    assert Unclosed([]) == 0 by { EmptyIsClosed(); }
    var after := Step(st, AddCallback(id, v));
    forall i | 0 <= i < |after.sinks| ensures SinkInv(after.sinks[i], st.scopes, st.clock + 1) {
      if i < |st.sinks| {
        assert SinkInv(st.sinks[i], st.scopes, st.clock);
        assert after.sinks[i] == st.sinks[i];
      }
    }
  }

  lemma EmptyIsClosed()
    ensures Unclosed([]) == 0
  {}

  lemma RemovedKeepsInv(st: State, id: string)
    requires Inv(st)
    ensures Inv(Removed(st, id).(clock := st.clock + 1))
  {
    hide MaxVerbosity, SinkInv;
    LaterIsFine(st);
    var i := FindSink(st.sinks, id);
    if i == |st.sinks| {
      EmitKeepsInv(st, ERROR);
    } else {
      var after := Removed(st, id);
      assert forall j | 0 <= j < |after.sinks| :: after.sinks[j] == st.sinks[if j < i then j else j + 1];
    }
  }

  lemma StepKeepsInv(st: State, e: Event)
    requires Inv(st) && Enabled(st, e)
    ensures Inv(Step(st, e))
  {
    hide Inv, Opened, Closed, Removed, Emit;
    match e
    case OpenScope(v) => OpenedKeepsInv(st, v);
    case CloseScope => ClosedKeepsInv(st);
    case Log(v) => EmitKeepsInv(st, v); LaterIsFine(st);
    case AddCallback(id, v) => AddedKeepsInv(st, id, v);
    case RemoveCallback(id) => RemovedKeepsInv(st, id);
    case RemoveAllCallbacks => NoSinksKeepsInv(st);
    case SetStderrVerbosity(v) => LaterIsFine(st); StderrVerbosityKeepsInv(st, v);
  }

  lemma NoSinksKeepsInv(st: State)
    requires Inv(st)
    ensures Inv(st.(sinks := [], maxOut := OFF, clock := st.clock + 1))
  {}

  lemma StderrVerbosityKeepsInv(st: State, v: int)
    requires Inv(st)
    ensures Inv(st.(stderrVerbosity := v, clock := st.clock + 1))
  {
    LaterIsFine(st);
  }

  /** Over every run, each sink's indentation is the number of open scopes that were opened since it
      was registered, at a verbosity it accepts, whatever callbacks came and went; it is also the
      number of unclosed braces in the sink's own output, by which its lines are indented. */
  lemma {:induction false} RunKeepsInv(stderrVerbosity: int, events: seq<Event>)
    requires Run(Initial(stderrVerbosity), events).Some?
    ensures Inv(Run(Initial(stderrVerbosity), events).value)
    decreases |events|
  {
    hide Inv, Step, Enabled;
    if events == [] {
      assert Inv(Initial(stderrVerbosity)) by { InitialInv(stderrVerbosity); }
    } else {
      RunKeepsInv(stderrVerbosity, events[..|events| - 1]);
      StepKeepsInv(Run(Initial(stderrVerbosity), events[..|events| - 1]).value, events[|events| - 1]);
    }
  }

  lemma InitialInv(stderrVerbosity: int)
    ensures Inv(Initial(stderrVerbosity))
  {}

  // ---------- the cutoff ----------

  /** After every run, the macro guard skips a message above OFF exactly when neither stderr nor any
      callback would take it, and skips nothing that is not above OFF. */
  lemma GuardAgreesWithSinks(stderrVerbosity: int, events: seq<Event>, v: int)
    requires Run(Initial(stderrVerbosity), events).Some?
    ensures var st := Run(Initial(stderrVerbosity), events).value;
            v > Cutoff(st) <==>
              v > OFF && v > st.stderrVerbosity && forall i | 0 <= i < |st.sinks| :: v > st.sinks[i].verbosity
  {
    RunKeepsInv(stderrVerbosity, events);
    MaxIsMaximum(Run(Initial(stderrVerbosity), events).value.sinks);
  }

  // ---------- what a sink sees of a scope ----------

  /** Opening braces minus closing ones. */
  function Net(lines: seq<Line>): int {
    if lines == [] then 0
    else
      Net(lines[..|lines| - 1])
      + match lines[|lines| - 1].mark
        case Open => 1
        case Close => -1
        case Plain => 0
  }

  /** No closing brace comes before its opening one. */
  ghost predicate NeverNegative(lines: seq<Line>) {
    forall k | 0 <= k <= |lines| :: Net(lines[..k]) >= 0
  }

  /** The braces match up. */
  ghost predicate WellNested(lines: seq<Line>) {
    NeverNegative(lines) && Net(lines) == 0
  }

  /** The same sink, with more lines. */
  predicate Continues(p: Sink, q: Sink, more: seq<Line>) {
    p.id == q.id && p.born == q.born && p.verbosity == q.verbosity && q.lines == p.lines + more
  }

  /** The scopes that were open at first stay open over the events. */
  ghost predicate StaysAbove(st: State, events: seq<Event>) {
    forall k | 0 <= k <= |events| ::
      Run(st, events[..k]).Some? && |Run(st, events[..k]).value.scopes| >= |st.scopes|
  }

  lemma NetAppend(lines: seq<Line>, line: Line)
    ensures Net(lines + [line])
         == Net(lines) + match line.mark case Open => 1 case Close => -1 case Plain => 0
    ensures NeverNegative(lines) && Net(lines + [line]) >= 0 ==> NeverNegative(lines + [line])
  {
    var longer := lines + [line];
    assert longer[..|lines|] == lines && longer[..|longer|] == longer;
    assert forall k | 0 <= k <= |lines| :: longer[..k] == lines[..k];
  }

  /** What an event does to a sink that outlives it. */
  function SinkAfter(st: State, e: Event, p: Sink): Sink
    requires Enabled(st, e)
  {
    match e
    case OpenScope(v) => if v <= Cutoff(st) then Indent(Deliver(p, v, Open), v) else p
    case CloseScope =>
      var s := st.scopes[|st.scopes| - 1];
      if s.active then Deliver(Dedent(p, s.verbosity), s.verbosity, Close) else p
    case Log(v) => if v > Cutoff(st) then p else Deliver(p, v, Plain)
    case RemoveCallback(id) =>
      if FindSink(st.sinks, id) < |st.sinks| || ERROR > Cutoff(st) then p else Deliver(p, ERROR, Plain)
    case _ => p
  }

  /** Where the `j`th sink after an event was before it. */
  function PlaceBefore(st: State, e: Event, j: nat): nat {
    if e.RemoveCallback? && FindSink(st.sinks, e.id) < |st.sinks| && FindSink(st.sinks, e.id) <= j then j + 1 else j
  }

  lemma StepSinks(st: State, e: Event, j: nat)
    requires Enabled(st, e) && j < |Step(st, e).sinks|
    ensures var i := PlaceBefore(st, e, j);
            if i < |st.sinks| then Step(st, e).sinks[j] == SinkAfter(st, e, st.sinks[i])
            else e.AddCallback? && Step(st, e).sinks[j].born == st.clock
  {
    hide Deliver, Indent, Dedent, Columns, MaxVerbosity;
  }

  lemma StepScopes(st: State, e: Event)
    requires Enabled(st, e)
    ensures var scopes' := Step(st, e).scopes;
            match e
            case OpenScope(v) =>
              |scopes'| == |st.scopes| + 1 && st.scopes <= scopes' && scopes'[|st.scopes|].born == st.clock
            case CloseScope => st.scopes != [] && scopes' == st.scopes[..|st.scopes| - 1]
            case _ => scopes' == st.scopes
    ensures Step(st, e).clock == st.clock + 1
  {
    hide DeliverAll, IndentAll, DedentAll, MaxVerbosity;
  }

  /** An event sends a sink at most one line, which moves its indentation by its brace, unless it
      closes a scope the sink did not see open. */
  lemma StepContinues(st: State, e: Event, p: Sink) returns (more: seq<Line>)
    requires Enabled(st, e)
    ensures var q := SinkAfter(st, e, p);
            && Continues(p, q, more) && |more| <= 1
            && (q.indentation - p.indentation != Net(more) ==> e.CloseScope? && more != [] && p.indentation == 0)
    ensures more != [] && e.CloseScope? ==> st.scopes[|st.scopes| - 1].verbosity <= p.verbosity
  {
    hide Columns, Cutoff, Net;
    var q := SinkAfter(st, e, p);
    more := if |q.lines| > |p.lines| then [q.lines[|p.lines|]] else [];
    assert p.lines + [] == p.lines;
    OneLine();
  }

  lemma OneLine()
    ensures Net([]) == 0
    ensures forall l: Line {:trigger [l]} :: Net([l]) == match l.mark case Open => 1 case Close => -1 case Plain => 0
  {
    forall l: Line ensures Net([l]) == match l.mark case Open => 1 case Close => -1 case Plain => 0 {
      assert [l][..0] == [];
    }
  }

  lemma {:induction false} SincePrefix(scopes: seq<Scope>, more: seq<Scope>, born: nat, verbosity: int)
    ensures ScopesSince(scopes + more, born, verbosity) >= ScopesSince(scopes, born, verbosity)
    decreases |more|
  {
    if more == [] {
      assert scopes + more == scopes;
    } else {
      var before := more[..|more| - 1];
      SincePrefix(scopes, before, born, verbosity);
      assert scopes + more == (scopes + before) + [more[|more| - 1]];
      SinceAppend(scopes + before, more[|more| - 1], born, verbosity);
    }
  }

  /** Events that leave the open scopes alone: those stay as they are below newer ones. */
  lemma {:induction false} ScopesStay(st: State, events: seq<Event>)
    requires Inv(st) && StaysAbove(st, events)
    ensures Run(st, events).Some?
    ensures var after := Run(st, events).value;
            && Inv(after) && st.clock <= after.clock && st.scopes <= after.scopes
            && forall i | |st.scopes| <= i < |after.scopes| :: after.scopes[i].born >= st.clock
    decreases |events|
  {
    hide Inv, Step, Enabled;
    assert events[..|events|] == events;
    if events != [] {
      var before, e := events[..|events| - 1], events[|events| - 1];
      assert StaysAbove(st, before) by {
        assert forall k | 0 <= k <= |before| :: before[..k] == events[..k];
      }
      ScopesStay(st, before);
      StepKeepsInv(Run(st, before).value, e);
      StepScopes(Run(st, before).value, e);
      var mid, after := Run(st, before).value.scopes, Run(st, events).value.scopes;
      forall i | |st.scopes| <= i < |after| ensures after[i].born >= st.clock {
        assert i < |mid| ==> after[i] == mid[i];
        assert i >= |mid| ==> e.OpenScope? && i == |mid|;
      }
    }
  }

  /** What a sink that was there at first gets over such events. */
  lemma {:induction false} LinesOverEvents(st: State, events: seq<Event>, j: nat) returns (i: nat, more: seq<Line>)
    requires Inv(st) && StaysAbove(st, events) && Run(st, events).Some?
    requires j < |Run(st, events).value.sinks| && Run(st, events).value.sinks[j].born < st.clock
    ensures i < |st.sinks|
    ensures var p, q := st.sinks[i], Run(st, events).value.sinks[j];
            && Continues(p, q, more)
            && Net(more) == q.indentation - p.indentation && NeverNegative(more)
    decreases |events|
  {
    hide Inv, Step, Enabled, SinkInv;
    if events == [] {
      i, more := j, [];
      assert Net([]) == 0 && NeverNegative([]) by { OneLine(); }
      assert st.sinks[i].lines + [] == st.sinks[i].lines;
    } else {
      var before, e := events[..|events| - 1], events[|events| - 1];
      assert StaysAbove(st, before) by {
        assert forall k | 0 <= k <= |before| :: before[..k] == events[..k];
      }
      ScopesStay(st, before);
      ScopesStay(st, events);
      var mid, after := Run(st, before).value, Run(st, events).value;
      assert after == Step(mid, e) && |after.scopes| >= |st.scopes|;
      StepSinks(mid, e, j);
      StepScopes(mid, e);
      hide Run, Net, NeverNegative, ScopesSince, StaysAbove, SinkAfter;
      var i' := PlaceBefore(mid, e, j);
      var last := StepContinues(mid, e, mid.sinks[i']);
      var w;
      i, w := LinesOverEvents(st, before, i');
      more := w + last;
      if last != [] && e.CloseScope? {
        ClosedScopeWasSeen(mid, i', |st.scopes|, st.clock);
      }
      IndentationNotBelow(st, i, after, j);
      GrowTrace(w, last, st.sinks[i].indentation, mid.sinks[i'].indentation, after.sinks[j].indentation);
      assert after.sinks[j].lines == st.sinks[i].lines + more;
    }
  }

  lemma IndentationNotBelow(st: State, i: nat, after: State, j: nat)
    requires Inv(st) && Inv(after) && st.scopes <= after.scopes
    requires i < |st.sinks| && j < |after.sinks|
    requires st.sinks[i].born == after.sinks[j].born && st.sinks[i].verbosity == after.sinks[j].verbosity
    ensures after.sinks[j].indentation >= st.sinks[i].indentation
  {
    hide Inv;
    SinkCounts(st, i);
    SinkCounts(after, j);
    SincePrefix(st.scopes, after.scopes[|st.scopes|..], st.sinks[i].born, st.sinks[i].verbosity);
    assert after.scopes == st.scopes + after.scopes[|st.scopes|..];
  }

  lemma GrowTrace(lines: seq<Line>, more: seq<Line>, first: nat, mid: nat, last: nat)
    requires |more| <= 1 && NeverNegative(lines) && last >= first
    requires Net(lines) == mid - first && Net(more) == last - mid
    ensures Net(lines + more) == last - first && NeverNegative(lines + more)
  {
    if more == [] {
      assert lines + more == lines;
    } else {
      assert more == [more[0]];
      NetAppend(lines, more[0]);
      OneLine();
    }
  }

  lemma SinkCounts(st: State, i: nat)
    requires Inv(st) && i < |st.sinks|
    ensures st.sinks[i].indentation == ScopesSince(st.scopes, st.sinks[i].born, st.sinks[i].verbosity)
  {
    assert SinkInv(st.sinks[i], st.scopes, st.clock);
  }

  /** A scope above `base` was counted by every older sink that accepts it. */
  lemma ClosedScopeWasSeen(st: State, i: nat, base: nat, since: nat)
    requires Inv(st) && i < |st.sinks| && st.sinks[i].born < since
    requires |st.scopes| > base && forall k | base <= k < |st.scopes| :: st.scopes[k].born >= since
    requires st.scopes[|st.scopes| - 1].verbosity <= st.sinks[i].verbosity
    ensures st.sinks[i].indentation > 0
  {
    SinkCounts(st, i);
  }

  /** A sink that is there from before a scope opens until after it closes, and accepts the scope,
      sees `{` and `}` at the same indentation, and between them a well-nested word; and it is
      indented afterwards as it was before. */
  lemma ScopeSeenByItsSinks(
    stderrVerbosity: int, before: seq<Event>, v: int, body: seq<Event>, j: nat)
    returns (i: nat, inner: seq<Line>)
    requires Run(Initial(stderrVerbosity), before).Some? && v != FATAL
    requires var st := Run(Initial(stderrVerbosity), before).value;
             var inside := Step(st, OpenScope(v));
             && StaysAbove(inside, body) && Run(inside, body).Some?
             && |Run(inside, body).value.scopes| == |inside.scopes|
             && inside.scopes != []
             && var after := Step(Run(inside, body).value, CloseScope);
                j < |after.sinks| && after.sinks[j].born < st.clock && v <= after.sinks[j].verbosity
    ensures var st := Run(Initial(stderrVerbosity), before).value;
            var after := Step(Run(Step(st, OpenScope(v)), body).value, CloseScope);
            && i < |st.sinks|
            && var p, q := st.sinks[i], after.sinks[j]; var c := Columns(p.indentation);
               && Continues(p, q, [Line(Open, c)] + inner + [Line(Close, c)])
               && WellNested(inner)
               && q.indentation == p.indentation
  {
    hide Inv, Columns, StaysAbove, Net, NeverNegative, Run, Step, ScopesSince;
    RunKeepsInv(stderrVerbosity, before);
    var st := Run(Initial(stderrVerbosity), before).value;
    var inside := Step(st, OpenScope(v));
    StepKeepsInv(st, OpenScope(v));
    ScopesStay(inside, body);
    var mid := Run(inside, body).value;
    StepKeepsInv(mid, CloseScope);
    var after := Step(mid, CloseScope);
    assert mid.scopes == inside.scopes;
    SinkAtClose(mid, j);
    StepTakesTime(st, OpenScope(v));
    i, inner := LinesOverEvents(inside, body, j);
    SinkAtOpen(st, v, i);
    CutoffCoversTaker(st, i, v);
    assert after.scopes == st.scopes;
    SinkCounts(st, i);
    SinkCounts(inside, i);
    SinkCounts(mid, j);
    SinkCounts(after, j);
    SinceAppend(st.scopes, inside.scopes[|st.scopes|], st.sinks[i].born, st.sinks[i].verbosity);
  }

  lemma StepTakesTime(st: State, e: Event)
    requires Enabled(st, e)
    ensures Step(st, e).clock == st.clock + 1
  {}

  lemma SinkAtOpen(st: State, v: int, i: nat)
    requires Enabled(st, OpenScope(v)) && i < |Step(st, OpenScope(v)).sinks|
    ensures var after := Step(st, OpenScope(v));
            && i < |st.sinks|
            && var p, q := st.sinks[i], after.sinks[i];
               && q.id == p.id && q.verbosity == p.verbosity && q.born == p.born
               && after.scopes[..|after.scopes| - 1] == st.scopes && |after.scopes| == |st.scopes| + 1
               && (v <= Cutoff(st) ==>
                     && after.scopes[|st.scopes|].active
                     && (v <= p.verbosity ==> q.lines == p.lines + [Line(Open, Columns(p.indentation))]))
               && after.scopes[|st.scopes|].verbosity == v && after.scopes[|st.scopes|].born == st.clock
  {
    hide Columns;
  }

  lemma SinkAtClose(st: State, j: nat)
    requires Enabled(st, CloseScope) && j < |Step(st, CloseScope).sinks|
    ensures var after := Step(st, CloseScope); var s := st.scopes[|st.scopes| - 1];
            && j < |st.sinks|
            && var p, q := st.sinks[j], after.sinks[j];
               && q.id == p.id && q.verbosity == p.verbosity && q.born == p.born
               && after.scopes == st.scopes[..|st.scopes| - 1]
               && (s.active && s.verbosity <= p.verbosity ==>
                     q.lines == p.lines + [Line(Close, Columns(q.indentation))])
  {
    hide Columns;
  }

  /** A scope that some sink accepts is active. */
  lemma CutoffCoversTaker(st: State, i: nat, v: int)
    requires Inv(st) && i < |st.sinks| && v <= st.sinks[i].verbosity
    ensures v <= Cutoff(st)
  {
    MaxIsMaximum(st.sinks);
  }
}
