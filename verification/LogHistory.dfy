/** What the logger's outputs receive, told from the history of events alone: who is registered, which
    scopes are open and what each output accepts decide every line it gets, and how far it is indented. */
module LogHistory {
  import opened Outcomes
  import opened LogSinks

  // ---------- the history ----------

  /** A callback that was registered by the event at `at`. */
  datatype Registration = Registration(id: string, verbosity: int, at: nat)

  function WithoutFirst(list: seq<Registration>, id: string): seq<Registration> {
    if list == [] then []
    else if list[0].id == id then list[1..]
    else [list[0]] + WithoutFirst(list[1..], id)
  }

  predicate Knows(list: seq<Registration>, id: string) {
    exists i | 0 <= i < |list| :: list[i].id == id
  }

  /** The callbacks that are registered after some events. */
  function Live(events: seq<Event>): seq<Registration> {
    if events == [] then []
    else
      var n := |events| - 1;
      var list := Live(events[..n]);
      match events[n]
      case AddCallback(id, v) => list + [Registration(id, v, n)]
      case RemoveCallback(id) => WithoutFirst(list, id)
      case RemoveAllCallbacks => []
      case _ => list
  }

  /** What stderr accepts after some events. */
  function StderrLevel(start: int, events: seq<Event>): int {
    if events == [] then start
    else
      match events[|events| - 1]
      case SetStderrVerbosity(v) => v
      case _ => StderrLevel(start, events[..|events| - 1])
  }

  /** Somebody takes a message of this verbosity; one that is not above OFF always passes. */
  predicate Wanted(start: int, events: seq<Event>, v: int) {
    || v <= -9
    || v <= StderrLevel(start, events)
    || exists i | 0 <= i < |Live(events)| :: v <= Live(events)[i].verbosity
  }

  /** The scopes that are open after some events, with what was decided when they were opened. */
  function Nesting(start: int, events: seq<Event>): seq<Scope> {
    if events == [] then []
    else
      var n := |events| - 1;
      var before, scopes := events[..n], Nesting(start, events[..n]);
      match events[n]
      case OpenScope(v) => scopes + [Scope(v, Wanted(start, before, v), v <= StderrLevel(start, before), n)]
      case CloseScope => if scopes == [] then [] else scopes[..|scopes| - 1]
      case _ => scopes
  }

  /** Four columns for each level, up to a hundred levels. */
  function Margin(depth: nat): nat {
    if depth < 100 then 4 * depth else 400
  }

  /** The mark of the line that an event sends to an output which accepts `level`, if it sends one. */
  function Sent(start: int, before: seq<Event>, e: Event, level: int): Option<Mark> {
    match e
    case OpenScope(v) => if v <= level then Some(Open) else None
    case CloseScope =>
      var scopes := Nesting(start, before);
      if scopes != [] && scopes[|scopes| - 1].active && scopes[|scopes| - 1].verbosity <= level
      then Some(Close) else None
    case Log(v) => if v <= level then Some(Plain) else None
    case RemoveCallback(id) => if !Knows(Live(before), id) && -2 <= level then Some(Plain) else None
    case _ => None
  }

  /** A closing brace stands where its opening one stood, any other line inside the open scopes. */
  function Placed(mark: Option<Mark>, depthBefore: nat, depthAfter: nat): seq<Line> {
    match mark
    case None => []
    case Some(Close) => [Line(Close, Margin(depthAfter))]
    case Some(m) => [Line(m, Margin(depthBefore))]
  }

  /** What a callback was sent since it was registered. */
  function SinkLines(start: int, events: seq<Event>, r: Registration): seq<Line> {
    if |events| <= r.at + 1 then []
    else
      var before, e := events[..|events| - 1], events[|events| - 1];
      SinkLines(start, before, r)
      + Placed(Sent(start, before, e, r.verbosity),
               ScopesSince(Nesting(start, before), r.at, r.verbosity),
               ScopesSince(Nesting(start, events), r.at, r.verbosity))
  }

  /** What stderr was sent. */
  function StderrLines(start: int, events: seq<Event>): seq<Line> {
    if events == [] then []
    else
      var before, e := events[..|events| - 1], events[|events| - 1];
      StderrLines(start, before)
      + Placed(Sent(start, before, e, StderrLevel(start, before)),
               StderrScopes(Nesting(start, before)), StderrScopes(Nesting(start, events)))
  }

  // ---------- the logger's state is what the history says ----------

  predicate SinkIs(start: int, events: seq<Event>, p: Sink, r: Registration) {
    && p.id == r.id && p.verbosity == r.verbosity && p.born == r.at
    && p.lines == SinkLines(start, events, r)
  }

  predicate SinksAre(start: int, events: seq<Event>, sinks: seq<Sink>) {
    && |sinks| == |Live(events)|
    && forall j | 0 <= j < |sinks| :: SinkIs(start, events, sinks[j], Live(events)[j])
  }

  predicate StateIs(start: int, events: seq<Event>, st: State) {
    && st.clock == |events|
    && st.scopes == Nesting(start, events)
    && st.stderrVerbosity == StderrLevel(start, events)
    && st.stderr == StderrLines(start, events)
    && SinksAre(start, events, st.sinks)
  }

  lemma {:induction false} WithoutFirstIs(list: seq<Registration>, id: string, k: nat)
    requires k <= |list| && forall j | 0 <= j < k :: list[j].id != id
    requires k < |list| ==> list[k].id == id
    ensures WithoutFirst(list, id) == if k < |list| then list[..k] + list[k + 1..] else list
    decreases |list|
  {
    if list != [] && k == 0 {
      assert list[..0] + list[1..] == list[1..];
    } else if list != [] {
      WithoutFirstIs(list[1..], id, k - 1);
      hide WithoutFirst;
      HeadBack(list, k);
    }
  }

  lemma HeadBack(list: seq<Registration>, k: nat)
    requires 0 < k <= |list|
    ensures k < |list| ==> [list[0]] + (list[1..][..k - 1] + list[1..][k..]) == list[..k] + list[k + 1..]
    ensures [list[0]] + list[1..] == list
  {}

  /** The guard lets through what somebody wants. */
  lemma CutoffIsWanted(start: int, events: seq<Event>, st: State, v: int)
    requires Inv(st) && StateIs(start, events, st)
    ensures v <= Cutoff(st) <==> Wanted(start, events, v)
  {
    hide SinkLines, StderrLines, Nesting, Live, StderrLevel, ScopesSince;
    MaxIsMaximum(st.sinks);
    var list := Live(events);
    assert forall j | 0 <= j < |st.sinks| :: SinkIs(start, events, st.sinks[j], list[j]);
  }

  lemma FoundIsKnown(start: int, events: seq<Event>, st: State, id: string)
    requires StateIs(start, events, st)
    ensures var k := FindSink(st.sinks, id); var list := Live(events);
            && (Knows(list, id) <==> k < |st.sinks|)
            && WithoutFirst(list, id) == if k < |st.sinks| then list[..k] + list[k + 1..] else list
  {
    hide SinkLines, StderrLines, Nesting, Live, StderrLevel, FindSink, WithoutFirst;
    var list := Live(events);
    assert forall j | 0 <= j < |st.sinks| :: SinkIs(start, events, st.sinks[j], list[j]);
    WithoutFirstIs(list, id, FindSink(st.sinks, id));
  }

  lemma StepOnScopes(start: int, events: seq<Event>, st: State, e: Event)
    requires Inv(st) && StateIs(start, events, st) && Enabled(st, e)
    ensures var after := Step(st, e); var longer := events + [e];
            && after.clock == |longer|
            && after.scopes == Nesting(start, longer)
            && after.stderrVerbosity == StderrLevel(start, longer)
  {
    hide SinkLines, StderrLines, SinksAre, Inv, DeliverAll, IndentAll, DedentAll, MaxVerbosity, FindSink, Wanted,
      Cutoff;
    assert (events + [e])[..|events|] == events;
    if e.OpenScope? {
      CutoffIsWanted(start, events, st, e.verbosity);
      StderrPasses(st, e.verbosity);
    }
  }

  lemma StderrPasses(st: State, v: int)
    ensures v <= st.stderrVerbosity ==> v <= Cutoff(st)
  {}

  /** The line that an event adds to a sink's. */
  lemma StepOnSink(start: int, events: seq<Event>, st: State, e: Event, i: nat)
    requires Inv(st) && StateIs(start, events, st) && Enabled(st, e) && i < |st.sinks|
    ensures var p, q := st.sinks[i], SinkAfter(st, e, st.sinks[i]);
            && q.id == p.id && q.verbosity == p.verbosity && q.born == p.born
            && q.lines == p.lines + Placed(Sent(start, events, e, p.verbosity), p.indentation, q.indentation)
  {
    hide SinkLines, StderrLines, SinksAre, ScopesSince, Nesting, Live, StderrLevel, Cutoff;
    var p := st.sinks[i];
    assert p.lines + [] == p.lines;
    match e
    case OpenScope(v) => SinkPasses(st, i, v);
    case Log(v) => SinkPasses(st, i, v);
    case RemoveCallback(id) => SinkPasses(st, i, ERROR); FoundIsKnown(start, events, st, id);
    case _ =>
  }

  lemma SinkPasses(st: State, i: nat, v: int)
    requires Inv(st) && i < |st.sinks|
    ensures v <= st.sinks[i].verbosity ==> v <= Cutoff(st)
  {
    MaxIsMaximum(st.sinks);
  }

  /** The line that an event adds to stderr's. */
  lemma StepOnStderr(start: int, events: seq<Event>, st: State, e: Event)
    requires Inv(st) && StateIs(start, events, st) && Enabled(st, e)
    ensures Step(st, e).stderr
         == st.stderr + Placed(Sent(start, events, e, st.stderrVerbosity),
                               st.stderrIndentation, Step(st, e).stderrIndentation)
  {
    hide SinkLines, StderrLines, SinksAre, Inv, Nesting, Live, StderrLevel, Cutoff, DeliverAll, IndentAll, DedentAll,
      MaxVerbosity;
    assert st.stderr + [] == st.stderr;
    match e
    case OpenScope(v) => StderrPasses(st, v);
    case Log(v) => StderrPasses(st, v);
    case RemoveCallback(id) => StderrPasses(st, ERROR); FoundIsKnown(start, events, st, id);
    case _ =>
  }

  /** The callbacks after an event are the registrations after it, in the same order. */
  lemma StepOnList(start: int, events: seq<Event>, st: State, e: Event)
    requires StateIs(start, events, st) && Enabled(st, e)
    ensures var list, list', sinks' := Live(events), Live(events + [e]), Step(st, e).sinks;
            && |sinks'| == |list'|
            && forall j | 0 <= j < |list'| ::
                 var i := PlaceBefore(st, e, j);
                 if i < |list| then list'[j] == list[i]
                 else
                   && e.AddCallback? && sinks'[j] == Sink(e.id, e.verbosity, 0, |events|, [])
                   && list'[j] == Registration(e.id, e.verbosity, |events|)
  {
    hide SinkLines, StderrLines, Nesting, StderrLevel, Cutoff, Deliver, Indent, Dedent, MaxVerbosity, FindSink,
      WithoutFirst, Knows;
    assert (events + [e])[..|events|] == events;
    if e.RemoveCallback? {
      FoundIsKnown(start, events, st, e.id);
    }
  }

  lemma StepOnSinks(start: int, events: seq<Event>, st: State, e: Event)
    requires Inv(st) && StateIs(start, events, st) && Enabled(st, e)
    requires Inv(Step(st, e)) && Step(st, e).scopes == Nesting(start, events + [e])
    ensures SinksAre(start, events + [e], Step(st, e).sinks)
  {
    hide Inv, Step, StderrLines, Nesting, Live, StderrLevel, Sent, Placed, PlaceBefore, SinkAfter, ScopesSince;
    var after, longer := Step(st, e), events + [e];
    assert longer[..|longer| - 1] == events && longer[|longer| - 1] == e;
    StepOnList(start, events, st, e);
    forall j | 0 <= j < |after.sinks| ensures SinkIs(start, longer, after.sinks[j], Live(longer)[j]) {
      var i := PlaceBefore(st, e, j);
      StepSinks(st, e, j);
      if i < |st.sinks| {
        assert SinkIs(start, events, st.sinks[i], Live(events)[i]);
        StepOnSink(start, events, st, e, i);
        SinkCounts(st, i);
        SinkCounts(after, j);
        BornBefore(st, i);
      }
    }
  }

  lemma BornBefore(st: State, i: nat)
    requires Inv(st) && i < |st.sinks|
    ensures st.sinks[i].born < st.clock
  {
    assert SinkInv(st.sinks[i], st.scopes, st.clock);
  }

  lemma StderrCounts(st: State)
    requires Inv(st)
    ensures st.stderrIndentation == StderrScopes(st.scopes)
  {}

  /** In every run, whatever callbacks come and go, the history decides everything: the callbacks are the
      live registrations, each with exactly the lines of the events since then that it accepts, stderr has
      the lines of those that it accepted at the time, and each line stands at four columns for each open
      scope that its output saw opened. */
  lemma {:induction false} HistoryDecides(start: int, events: seq<Event>)
    requires Run(Initial(start), events).Some?
    ensures StateIs(start, events, Run(Initial(start), events).value)
    decreases |events|
  {
    hide Step, Enabled, Inv, StateIs;
    if events == [] {
      NoHistory(start);
    } else {
      var before, e := events[..|events| - 1], events[|events| - 1];
      var st := Run(Initial(start), before).value;
      HistoryDecides(start, before);
      RunKeepsInv(start, before);
      StepKeepsInv(st, e);
      StepOnHistory(start, before, st, e);
      assert events == before + [e];
    }
  }

  lemma NoHistory(start: int)
    ensures StateIs(start, [], Initial(start))
  {}

  lemma StepOnHistory(start: int, events: seq<Event>, st: State, e: Event)
    requires Inv(st) && StateIs(start, events, st) && Enabled(st, e) && Inv(Step(st, e))
    ensures StateIs(start, events + [e], Step(st, e))
  {
    StepOnScopes(start, events, st, e);
    StepOnSinks(start, events, st, e);
    StepOnStderr(start, events, st, e);
    StderrCounts(st);
    StderrCounts(Step(st, e));
    hide Inv, Step, Enabled, SinksAre, Nesting, StderrLevel, Sent, Placed, StderrScopes;
    assert (events + [e])[..|events + [e]| - 1] == events;
  }

  // ---------- messages ----------

  function Messages(lines: seq<Line>): nat {
    if lines == [] then 0
    else Messages(lines[..|lines| - 1]) + if lines[|lines| - 1].mark.Plain? then 1 else 0
  }

  /** The messages logged since `from` that are not above `level`, and the removals that failed. */
  function Logged(events: seq<Event>, from: nat, level: int): nat {
    if |events| <= from then 0
    else
      var before, e := events[..|events| - 1], events[|events| - 1];
      Logged(before, from, level)
      + if e.Log? && e.verbosity <= level then 1
        else if e.RemoveCallback? && !Knows(Live(before), e.id) && -2 <= level then 1
        else 0
  }

  lemma MessagesAppend(lines: seq<Line>, mark: Option<Mark>, a: nat, b: nat)
    ensures Messages(lines + Placed(mark, a, b)) == Messages(lines) + if mark == Some(Plain) then 1 else 0
  {
    var more := Placed(mark, a, b);
    if mark.None? {
      assert lines + more == lines;
    } else {
      assert (lines + more)[..|lines|] == lines;
    }
  }

  lemma {:induction false} MessagesOfSink(start: int, events: seq<Event>, r: Registration)
    ensures Messages(SinkLines(start, events, r)) == Logged(events, r.at + 1, r.verbosity)
    decreases |events|
  {
    hide Placed, Live, Nesting, ScopesSince, Messages;
    if |events| <= r.at + 1 {
      assert Messages([]) == 0 by { NoMessages(); }
    } else {
      var before, e := events[..|events| - 1], events[|events| - 1];
      MessagesOfSink(start, before, r);
      MessagesAppend(SinkLines(start, before, r), Sent(start, before, e, r.verbosity),
                     ScopesSince(Nesting(start, before), r.at, r.verbosity),
                     ScopesSince(Nesting(start, events), r.at, r.verbosity));
    }
  }

  lemma NoMessages()
    ensures Messages([]) == 0
  {}

  /** The same for stderr, whose level may change on the way. */
  function LoggedToStderr(start: int, events: seq<Event>): nat {
    if events == [] then 0
    else
      var before, e := events[..|events| - 1], events[|events| - 1];
      LoggedToStderr(start, before)
      + if e.Log? && e.verbosity <= StderrLevel(start, before) then 1
        else if e.RemoveCallback? && !Knows(Live(before), e.id) && -2 <= StderrLevel(start, before) then 1
        else 0
  }

  lemma {:induction false} MessagesOfStderr(start: int, events: seq<Event>)
    ensures Messages(StderrLines(start, events)) == LoggedToStderr(start, events)
    decreases |events|
  {
    hide Placed, Live, Nesting, StderrScopes, Messages, StderrLevel;
    if events == [] {
      NoMessages();
    } else {
      var before, e := events[..|events| - 1], events[|events| - 1];
      MessagesOfStderr(start, before);
      MessagesAppend(StderrLines(start, before), Sent(start, before, e, StderrLevel(start, before)),
                     StderrScopes(Nesting(start, before)), StderrScopes(Nesting(start, events)));
    }
  }

  /** Every message reaches every output that accepts it, once: the messages that a callback has are as
      many as were logged since it was registered and are not above its verbosity, and those on stderr as
      many as were not above its verbosity at the time. */
  lemma EveryMessageArrives(start: int, events: seq<Event>)
    requires Run(Initial(start), events).Some?
    ensures var st := Run(Initial(start), events).value;
            && (forall j | 0 <= j < |st.sinks| ::
                  Messages(st.sinks[j].lines) == Logged(events, st.sinks[j].born + 1, st.sinks[j].verbosity))
            && Messages(st.stderr) == LoggedToStderr(start, events)
  {
    hide Run, Messages, Logged, SinkLines, StderrLines, Nesting, StderrLevel, LoggedToStderr;
    HistoryDecides(start, events);
    MessagesOfStderr(start, events);
    var st := Run(Initial(start), events).value;
    forall j | 0 <= j < |st.sinks|
      ensures Messages(st.sinks[j].lines) == Logged(events, st.sinks[j].born + 1, st.sinks[j].verbosity)
    {
      assert SinkIs(start, events, st.sinks[j], Live(events)[j]);
      MessagesOfSink(start, events, Live(events)[j]);
    }
  }
}
