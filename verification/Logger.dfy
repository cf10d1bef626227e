/** The logger's globals, updated in place; every operation is one event of `LogSinks`. */
module Logger {
  import opened LogSinks

  class Logger {
    var sinks: seq<Sink>
    var maxOut: int
    var stderrVerbosity: int
    var stderrIndentation: nat
    var stderr: seq<Line>
    /** The live scope objects, innermost last. */
    var scopes: seq<Scope>
    var clock: nat

    function Contents(): State
      reads this
    {
      State(sinks, maxOut, stderrVerbosity, stderrIndentation, stderr, scopes, clock)
    }

    constructor (stderrVerbosity: int)
      ensures Contents() == Initial(stderrVerbosity) && Inv(Contents())
    {
      sinks, maxOut, stderr, scopes := [], OFF, [], [];
      this.stderrVerbosity, stderrIndentation, clock := stderrVerbosity, 0, 0;
      new;
      InitialInv(stderrVerbosity);
    }

    method OnCallbackChange()
      modifies this`maxOut
      ensures maxOut == MaxVerbosity(sinks)
    {
      maxOut := OFF;
      for i := 0 to |sinks|
        invariant maxOut == MaxVerbosity(sinks[..i])
      {
        assert sinks[..i + 1][..i] == sinks[..i];
        maxOut := Max(maxOut, sinks[i].verbosity);
      }
      assert sinks[..|sinks|] == sinks;
    }

    method AddCallback(id: string, verbosity: int)
      requires Inv(Contents())
      modifies this
      ensures Contents() == Step(old(Contents()), Event.AddCallback(id, verbosity)) && Inv(Contents())
    {
      StepKeepsInv(Contents(), Event.AddCallback(id, verbosity));
      sinks := sinks + [Sink(id, verbosity, 0, clock, [])];
      OnCallbackChange();
      clock := clock + 1;
    }

    method RemoveCallback(id: string) returns (found: bool)
      requires Inv(Contents())
      modifies this
      ensures Contents() == Step(old(Contents()), Event.RemoveCallback(id)) && Inv(Contents())
      ensures found <==> exists i | 0 <= i < |old(sinks)| :: old(sinks)[i].id == id
    {
      hide MaxVerbosity, Emit, DeliverAll, Inv, Cutoff;
      StepKeepsInv(Contents(), Event.RemoveCallback(id));
      var i := 0;
      while i < |sinks| && sinks[i].id != id
        invariant 0 <= i <= |sinks|
        invariant forall j | 0 <= j < i :: sinks[j].id != id
      {
        i := i + 1;
      }
      assert i == FindSink(sinks, id);
      found := i < |sinks|;
      if found {
        sinks := sinks[..i] + sinks[i + 1..];
        OnCallbackChange();
      } else {
        GuardedLog(ERROR);
      }
      clock := clock + 1;
    }

    method RemoveAllCallbacks()
      requires Inv(Contents())
      modifies this
      ensures Contents() == Step(old(Contents()), Event.RemoveAllCallbacks) && Inv(Contents())
    {
      StepKeepsInv(Contents(), Event.RemoveAllCallbacks);
      sinks := [];
      OnCallbackChange();
      clock := clock + 1;
    }

    /** `log_message` */
    method LogMessage(v: int, mark: Mark)
      modifies this`sinks, this`stderr
      ensures Contents() == Emit(old(Contents()), v, mark)
    {
      if v <= stderrVerbosity {
        stderr := stderr + [Line(mark, Columns(stderrIndentation))];
      }
      ghost var said := stderr;
      for i := 0 to |sinks|
        invariant |sinks| == |old(sinks)|
        invariant stderr == said
        invariant forall k | 0 <= k < i :: sinks[k] == Deliver(old(sinks)[k], v, mark)
        invariant forall k | i <= k < |sinks| :: sinks[k] == old(sinks)[k]
      {
        if v <= sinks[i].verbosity {
          var p := sinks[i];
          sinks := sinks[i := p.(lines := p.lines + [Line(mark, Columns(p.indentation))])];
        }
      }
      assert sinks == DeliverAll(old(sinks), v, mark);
    }

    /** `VLOG_F`, which does not pass time. */
    method GuardedLog(v: int)
      modifies this`sinks, this`stderr
      ensures Contents() == GuardedEmit(old(Contents()), v)
    {
      if !(v > Cutoff(Contents())) {
        LogMessage(v, Plain);
      }
    }

    method Log(v: int)
      requires Inv(Contents()) && v != FATAL
      modifies this
      ensures Contents() == Step(old(Contents()), Event.Log(v)) && Inv(Contents())
    {
      hide GuardedEmit, Inv;
      StepKeepsInv(Contents(), Event.Log(v));
      GuardedLog(v);
      clock := clock + 1;
    }

    /** The constructor of a scope object. */
    method OpenScope(v: int)
      requires Inv(Contents()) && v != FATAL
      modifies this
      ensures Contents() == Step(old(Contents()), Event.OpenScope(v)) && Inv(Contents())
    {
      hide Inv, Emit, DeliverAll;
      StepKeepsInv(Contents(), Event.OpenScope(v));
      if v <= Cutoff(Contents()) {
        var indentStderr := v <= stderrVerbosity;
        LogMessage(v, Open);
        if indentStderr {
          stderrIndentation := stderrIndentation + 1;
        }
        IndentSinks(v);
        scopes := scopes + [Scope(v, true, indentStderr, clock)];
      } else {
        scopes := scopes + [Scope(v, false, false, clock)];
      }
      clock := clock + 1;
    }

    method IndentSinks(v: int)
      modifies this`sinks
      ensures sinks == IndentAll(old(sinks), v)
    {
      for i := 0 to |sinks|
        invariant |sinks| == |old(sinks)|
        invariant forall k | 0 <= k < i :: sinks[k] == Indent(old(sinks)[k], v)
        invariant forall k | i <= k < |sinks| :: sinks[k] == old(sinks)[k]
      {
        if v <= sinks[i].verbosity {
          sinks := sinks[i := sinks[i].(indentation := sinks[i].indentation + 1)];
        }
      }
    }

    method DedentSinks(v: int)
      modifies this`sinks
      ensures sinks == DedentAll(old(sinks), v)
    {
      for i := 0 to |sinks|
        invariant |sinks| == |old(sinks)|
        invariant forall k | 0 <= k < i :: sinks[k] == Dedent(old(sinks)[k], v)
        invariant forall k | i <= k < |sinks| :: sinks[k] == old(sinks)[k]
      {
        if v <= sinks[i].verbosity {
          if sinks[i].indentation > 0 {
            sinks := sinks[i := sinks[i].(indentation := sinks[i].indentation - 1)];
          }
        }
      }
    }

    /** The destructor of the innermost scope object. */
    method CloseScope()
      requires Inv(Contents()) && scopes != []
      modifies this
      ensures Contents() == Step(old(Contents()), Event.CloseScope) && Inv(Contents())
    {
      hide Inv, Emit, DedentAll;
      StepKeepsInv(Contents(), Event.CloseScope);
      var scope := scopes[|scopes| - 1];
      scopes := scopes[..|scopes| - 1];
      if scope.active {
        if scope.indentStderr && stderrIndentation > 0 {
          stderrIndentation := stderrIndentation - 1;
        }
        DedentSinks(scope.verbosity);
        LogMessage(scope.verbosity, Close);
      }
      clock := clock + 1;
    }
  }
}
