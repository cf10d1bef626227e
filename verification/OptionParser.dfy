/** The parser itself: it advances a cursor over argv and updates its tables in place. */
module OptionParser {
  import opened Outcomes
  import opened OptionSyntax
  import opened OptionValues
  import Spec = OptionParsing
  import opened OptionParsing

  class Parser {
    const cfg: Config
    const order: seq<string>
    var parsed: map<string, OptionValue>
    var sequential: seq<KeyValue>
    var keys: map<string, string>

    /** `order` is the order in which iterating over the option map visits it. */
    constructor (cfg: Config, order: seq<string>)
      requires IsOrder(cfg, order)
      ensures this.cfg == cfg && this.order == order
      ensures Contents() == NOTHING && keys == map[]
    {
      this.cfg, this.order := cfg, order;
      parsed, sequential, keys := map[], [], map[];
    }

    ghost function Contents(): Store
      reads this
    {
      Store(parsed, sequential)
    }

    method ParseOption(d: Details, arg: string) returns (r: Result<(), Error>)
      modifies this`parsed, this`sequential
      ensures var s := StoreOption(old(Contents()), d, arg);
              if s.Success? then r.Success? && Contents() == s.value
              else r == Failure(s.error)
    {
      var slot := Slot(parsed, d.Key());
      var storage := EnsureValue(slot, d);
      var v :- ParseValue(storage.owner.kind, arg, storage.value);
      parsed := parsed[d.Key() := OptionValue(Some(Storage(storage.owner, v)), slot.count + 1, slot.isDefault)];
      sequential := sequential + [KeyValue(d.longName, arg)];
      return Success(());
    }

    method ParseDefault(d: Details) returns (r: Result<(), Error>)
      modifies this`parsed
      ensures var s := StoreDefault(old(Contents()), d);
              if s.Success? then r.Success? && Contents() == s.value
              else r == Failure(s.error)
    {
      var slot := Slot(parsed, d.Key());
      var storage := EnsureValue(slot, d);
      var v :- ParseValue(storage.owner.kind, storage.owner.defaultText, storage.value);
      parsed := parsed[d.Key() := OptionValue(Some(Storage(storage.owner, v)), slot.count, true)];
      return Success(());
    }

    /** Returns the index of the last token used. */
    method CheckedParseArg(argv: seq<string>, current: nat, d: Details, name: string)
      returns (r: Result<nat, Error>)
      requires current < |argv|
      modifies this`parsed, this`sequential
      ensures var a := Spec.CheckedParseArg(old(Contents()), d, name, argv[current + 1..]);
              if a.Success? then r == Success(current + a.value.used) && Contents() == a.value.store
              else r == Failure(a.error)
    {
      if current + 1 >= |argv| {
        if d.hasImplicit {
          var _ :- ParseOption(d, d.implicitText);
        } else {
          return Failure(MissingArgument(name));
        }
      } else {
        if d.hasImplicit {
          var _ :- ParseOption(d, d.implicitText);
        } else {
          var _ :- ParseOption(d, argv[current + 1]);
          return Success(current + 1);
        }
      }
      return Success(current);
    }

    /** The loop over the letters of a token `-abc`; returns the index of the last token used. */
    method ParseLetters(argv: seq<string>, current: nat, letters: string)
      returns (r: Result<nat, Error>)
      requires current < |argv|
      modifies this`parsed, this`sequential
      ensures var a := ParseCluster(cfg, old(Contents()), letters, argv[current + 1..]);
              if a.Success? then r == Success(current + a.value.used) && Contents() == a.value.store
              else r == Failure(a.error)
    {
      hide StoreOption, Spec.CheckedParseArg;
      var i := 0;
      while i != |letters|
        invariant 0 <= i <= |letters|
        invariant ParseCluster(cfg, Contents(), letters[i..], argv[current + 1..])
               == ParseCluster(cfg, old(Contents()), letters, argv[current + 1..])
        decreases |letters| - i
      {
        var name := [letters[i]];
        assert letters[i..][..1] == name && letters[i..][1..] == letters[i + 1..];
        if name !in cfg.options {
          if !cfg.lenient {
            return Failure(OptionNotExists(name));
          }
        } else {
          var d := cfg.options[name];
          if i + 1 == |letters| {
            r := CheckedParseArg(argv, current, d, name);
            return;
          } else if d.hasImplicit {
            var _ :- ParseOption(d, d.implicitText);
          } else {
            return Failure(RequiresArgument(name));
          }
        }
        i := i + 1;
      }
      return Success(current);
    }

    /** Returns whether the token was taken, and the advanced positional cursor. */
    method ConsumePositional(a: string, next0: nat) returns (r: Result<(bool, nat), Error>)
      modifies this`parsed, this`sequential
      ensures var t := Spec.ConsumePositional(cfg, old(Contents()), next0, a);
              if t.Success? then
                r == Success((t.value.accepted, t.value.next)) && Contents() == t.value.store
              else r == Failure(t.error)
    {
      hide StoreOption;
      var next := next0;
      while next < |cfg.positional|
        invariant Contents() == old(Contents())
        invariant Spec.ConsumePositional(cfg, Contents(), next, a)
               == Spec.ConsumePositional(cfg, Contents(), next0, a)
      {
        var name := cfg.positional[next];
        if name !in cfg.options {
          return Failure(OptionNotExists(name));
        }
        var d := cfg.options[name];
        if d.kind.Vector? {
          var _ :- ParseOption(d, a);
          return Success((true, next));
        }
        if Slot(parsed, d.Key()).count == 0 {
          var _ :- ParseOption(d, a);
          return Success((true, next + 1));
        }
        next := next + 1;
      }
      return Success((false, next));
    }

    /** One turn of the main loop; returns the index after the last token used, the positional
        cursor, and the unmatched tokens. */
    method ParseToken(argv: seq<string>, current: nat, next: nat, unmatched: seq<string>)
      returns (r: Result<(nat, nat, seq<string>), Error>)
      requires current < |argv| && argv[current] != "--"
      modifies this`parsed, this`sequential
      ensures var m := Step(cfg, State(old(Contents()), next, unmatched), argv[current..]);
              if m.Success? then
                && r.Success? && r.value.0 == current + m.value.width
                && State(Contents(), r.value.1, r.value.2) == m.value.state
              else r == Failure(m.error)
    {
      hide StoreOption, Spec.CheckedParseArg, Spec.ConsumePositional, ParseCluster, Classify;
      var token := argv[current];
      assert argv[current..][0] == token && argv[current..][1..] == argv[current + 1..];
      match Classify(token)
      case Cluster(letters) =>
        var last :- ParseLetters(argv, current, letters);
        return Success((last + 1, next, unmatched));
      case LongWithValue(name, text) =>
        if name !in cfg.options {
          if cfg.lenient {
            return Success((current + 1, next, unmatched + [token]));
          }
          return Failure(OptionNotExists(name));
        }
        var _ :- ParseOption(cfg.options[name], text);
        return Success((current + 1, next, unmatched));
      case Long(name) =>
        if name !in cfg.options {
          if cfg.lenient {
            return Success((current + 1, next, unmatched + [token]));
          }
          return Failure(OptionNotExists(name));
        }
        var last :- CheckedParseArg(argv, current, cfg.options[name], name);
        return Success((last + 1, next, unmatched));
      case _ =>
        if "-" <= token && token != "-" && !cfg.lenient {
          return Failure(OptionSyntaxError(token));
        }
        var t :- ConsumePositional(token, next);
        return Success((current + 1, t.1, if t.0 then unmatched else unmatched + [token]));
    }

    /** The main loop.  `current` never passes the end of argv, and the tokens left decrease. */
    method MainLoop(argv: seq<string>) returns (r: Result<(nat, bool, nat, seq<string>), Error>)
      requires |argv| >= 1
      modifies this`parsed, this`sequential
      ensures var e := Loop(cfg, State(old(Contents()), 0, []), argv[1..]);
              if e.Success? then
                && r.Success? && 1 <= r.value.0 <= |argv|
                && State(Contents(), r.value.2, r.value.3) == e.value.state
                && e.value.rest == (if r.value.1 then Some(argv[r.value.0..]) else None)
                && (!r.value.1 ==> r.value.0 == |argv|)
              else r == Failure(e.error)
    {
      hide Step;
      var current, next, unmatched := 1, 0, [];
      while current != |argv|
        invariant 1 <= current <= |argv|
        invariant Loop(cfg, State(Contents(), next, unmatched), argv[current..])
               == Loop(cfg, State(old(Contents()), 0, []), argv[1..])
        decreases |argv| - current
      {
        ghost var tokens := argv[current..];
        assert tokens[0] == argv[current];
        if argv[current] == "--" {
          assert tokens[1..] == argv[current + 1..];
          return Success((current + 1, true, next, unmatched));
        }
        ghost var before := current;
        var step :- ParseToken(argv, current, next, unmatched);
        current, next, unmatched := step.0, step.1, step.2;
        assert tokens[current - before..] == argv[current..];
      }
      return Success((current, false, next, unmatched));
    }

    /** The loop over the option map that fills in defaults. */
    method DefaultsLoop() returns (r: Result<(), Error>)
      requires AllRegistered(cfg, order)
      modifies this`parsed
      ensures var s := ApplyDefaults(cfg, old(Contents()), order);
              if s.Success? then r.Success? && Contents() == s.value
              else r == Failure(s.error)
    {
      hide StoreDefault;
      assert order[0..] == order;
      for i := 0 to |order|
        invariant sequential == old(sequential)
        invariant AllRegistered(cfg, order[i..])
        invariant ApplyDefaults(cfg, Contents(), order[i..]) == ApplyDefaults(cfg, old(Contents()), order)
      {
        assert order[i..][0] == order[i] && order[i..][1..] == order[i + 1..];
        var d := cfg.options[order[i]];
        var slot := Slot(parsed, d.Key());
        if d.hasDefault && slot.count == 0 && !slot.isDefault {
          var _ :- ParseDefault(d);
        } else {
          parsed := parsed[d.Key() := slot];
        }
      }
      return Success(());
    }

    /** The tokens after `--`. */
    method RemainingLoop(argv: seq<string>, current0: nat, next0: nat, unmatched0: seq<string>)
      returns (r: Result<seq<string>, Error>)
      requires current0 <= |argv|
      modifies this`parsed, this`sequential
      ensures var t := TakeRest(cfg, State(old(Contents()), next0, unmatched0), argv[current0..]);
              if t.Success? then
                r == Success(t.value.unmatched) && Contents() == t.value.store
              else r == Failure(t.error)
    {
      hide Spec.ConsumePositional;
      var current, next := current0, next0;
      while current < |argv|
        invariant current <= |argv|
        invariant TakeRest(cfg, State(Contents(), next, unmatched0), argv[current..])
               == TakeRest(cfg, State(old(Contents()), next0, unmatched0), argv[current0..])
      {
        assert argv[current..][0] == argv[current] && argv[current..][1..] == argv[current + 1..];
        var t :- ConsumePositional(argv[current], next);
        if !t.0 {
          var left := AppendTokens(argv, current, unmatched0);
          return Success(left);
        }
        next := t.1;
        current := current + 1;
      }
      return Success(unmatched0);
    }

    /** The loop that keeps the tokens which no positional option took. */
    static method AppendTokens(argv: seq<string>, current0: nat, unmatched0: seq<string>)
      returns (unmatched: seq<string>)
      requires current0 <= |argv|
      ensures unmatched == unmatched0 + argv[current0..]
    {
      var current := current0;
      unmatched := unmatched0;
      while current != |argv|
        invariant current0 <= current <= |argv|
        invariant unmatched == unmatched0 + argv[current0..current]
        decreases |argv| - current
      {
        unmatched := unmatched + [argv[current]];
        current := current + 1;
      }
    }

    method FinaliseAliases()
      requires AllRegistered(cfg, order)
      modifies this`keys, this`parsed
      ensures keys == Aliases(cfg, old(keys), order)
      ensures parsed == EmplaceAll(cfg, old(parsed), order)
    {
      assert order[0..] == order;
      for i := 0 to |order|
        invariant AllRegistered(cfg, order[i..])
        invariant Aliases(cfg, keys, order[i..]) == Aliases(cfg, old(keys), order)
        invariant EmplaceAll(cfg, parsed, order[i..]) == EmplaceAll(cfg, old(parsed), order)
      {
        assert order[i..][0] == order[i] && order[i..][1..] == order[i + 1..];
        var d := cfg.options[order[i]];
        keys := keys[d.shortName := d.Key()];
        keys := keys[d.longName := d.Key()];
        parsed := parsed[d.Key() := Slot(parsed, d.Key())];
      }
    }

    /** A fresh parser reads argv, program name included. */
    method Parse(argv: seq<string>) returns (r: Result<ParseResult, Error>)
      requires |argv| >= 1 && AllRegistered(cfg, order)
      requires Contents() == NOTHING && keys == map[]
      modifies this
      ensures r == Spec.Parse(cfg, order, argv[1..])
    {
      hide Loop, ApplyDefaults, TakeRest, Aliases, EmplaceAll;
      var ended :- MainLoop(argv);
      var (current, consumeRemaining, next, unmatched) := ended;
      var _ :- DefaultsLoop();
      if consumeRemaining {
        unmatched :- RemainingLoop(argv, current, next, unmatched);
      }
      FinaliseAliases();
      return Success(ParseResult(keys, parsed, sequential, unmatched));
    }
  }
}
