/** Registering options: the map from names to options that a parser is given. */
module OptionRegistry {
  import opened Outcomes
  import opened OptionSyntax
  import opened OptionValues
  import opened OptionParsing
  import opened ParsedState
  import opened OptionParser

  datatype RegistryError = InvalidFormat(spec: string) | OptionExists(name: string)

  /** What every registered option looks like. */
  ghost predicate WellFormed(options: map<string, Details>) {
    && WellNamed(Config(options, [], false))
    && forall n | n in options :: IsShort(options[n].shortName) && IsLong(options[n].longName)
  }

  /** The map with an option entered under its non-empty names. */
  function Entered(options: map<string, Details>, d: Details): map<string, Details> {
    var withShort := if d.shortName == "" then options else options[d.shortName := d];
    if d.longName == "" then withShort else withShort[d.longName := d]
  }

  class Options {
    var options: map<string, Details>
    var positional: seq<string>
    var lenient: bool

    constructor ()
      ensures options == map[] && positional == [] && !lenient
      ensures WellFormed(options)
    {
      options, positional, lenient := map[], [], false;
    }

    method AllowUnrecognisedOptions()
      modifies this`lenient
      ensures lenient
    {
      lenient := true;
    }

    method ParsePositional(names: seq<string>)
      modifies this`positional
      ensures positional == names
    {
      positional := names;
    }

    method AddOneOption(name: string, d: Details) returns (r: Result<(), RegistryError>)
      modifies this`options
      ensures if name in old(options) then r == Failure(OptionExists(name)) && options == old(options)
              else r.Success? && options == old(options)[name := d]
    {
      if name in options {
        return Failure(OptionExists(name));
      }
      options := options[name := d];
      return Success(());
    }

    /** Registers an option from a specifier such as `c,config`.  A refused long name leaves the
        short name registered. */
    method AddOption(spec: string, kind: Kind, hasDefault: bool, defaultText: string,
                     hasImplicit: bool, implicitText: string)
      returns (r: Result<(), RegistryError>)
      modifies this`options
      ensures var names := SplitSpecifier(spec);
              if names.None? then r == Failure(InvalidFormat(spec)) && options == old(options)
              else
                var d := Details(names.value.0, names.value.1, kind,
                                 hasDefault, defaultText, hasImplicit, implicitText);
                if d.shortName != "" && d.shortName in old(options) then
                  r == Failure(OptionExists(d.shortName)) && options == old(options)
                else if d.longName != "" && d.longName in old(options) then
                  && r == Failure(OptionExists(d.longName))
                  && options == if d.shortName == "" then old(options) else old(options)[d.shortName := d]
                else r.Success? && options == Entered(old(options), d)
      ensures r.Success? && WellFormed(old(options)) ==> WellFormed(options)
    {
      hide SplitSpecifier, WellFormed, Entered;
      var names := SplitSpecifier(spec);
      if names.None? {
        return Failure(InvalidFormat(spec));
      }
      var d := Details(names.value.0, names.value.1, kind, hasDefault, defaultText, hasImplicit, implicitText);
      OneNameIsNotBoth(d);
      EnteredIs(options, d);
      if d.shortName != "" {
        var _ :- AddOneOption(d.shortName, d);
      }
      if d.longName != "" {
        var _ :- AddOneOption(d.longName, d);
      }
      if WellFormed(old(options)) {
        EnteringKeepsWellFormed(old(options), d);
      }
      return Success(());
    }

    /** Parses argv with a fresh parser; `order` is how the option map is iterated. */
    method Parse(argv: seq<string>, order: seq<string>) returns (r: Result<ParseResult, Error>)
      requires |argv| >= 1
      requires IsOrder(Config(options, positional, lenient), order)
      ensures r == OptionParsing.Parse(Config(options, positional, lenient), order, argv[1..])
    {
      var parser := new Parser(Config(options, positional, lenient), order);
      r := parser.Parse(argv);
    }
  }

  lemma OneNameIsNotBoth(d: Details)
    requires IsShort(d.shortName) && IsLong(d.longName) && (d.shortName, d.longName) != ("", "")
    ensures d.shortName != d.longName
  {}

  lemma EnteredIs(options: map<string, Details>, d: Details)
    ensures d.shortName == "" ==> Entered(options, d) == if d.longName == "" then options else options[d.longName := d]
    ensures d.shortName != "" && d.longName == "" ==> Entered(options, d) == options[d.shortName := d]
    ensures d.shortName != "" && d.longName != "" ==>
              Entered(options, d) == options[d.shortName := d][d.longName := d]
  {}

  lemma EnteringKeepsWellFormed(options: map<string, Details>, d: Details)
    requires WellFormed(options)
    requires IsShort(d.shortName) && IsLong(d.longName) && (d.shortName, d.longName) != ("", "")
    requires d.shortName != "" ==> d.shortName !in options
    requires d.longName != "" ==> d.longName !in options
    ensures WellFormed(Entered(options, d))
  {
    hide IsLong, IsShort;
    var after := Entered(options, d);
    assert d.shortName != d.longName by { OneNameIsNotBoth(d); }
    forall n | n in after
      ensures var e := after[n];
              && n != "" && (n == e.shortName || n == e.longName)
              && (e.shortName != "" ==> e.shortName in after && after[e.shortName] == e)
              && (e.longName != "" ==> e.longName in after && after[e.longName] == e)
              && IsShort(e.shortName) && IsLong(e.longName)
    {
      if n in options && after[n] == options[n] {
        var e := options[n];
        assert Config(options, [], false).options[n] == e;
      }
    }
  }

  /** Every registered name can be written as a flag. */
  lemma NamesCanBeSpelled(options: map<string, Details>, name: string)
    requires WellFormed(options) && name in options
    ensures var d := options[name];
            && (name == d.longName && d.longName != "" ==> Classify("--" + name) == Long(name))
            && (name == d.shortName && d.shortName != "" ==> Classify("-" + name) == Cluster(name))
  {
    if name == options[name].longName {
      LongIsRecognised(name);
    } else {
      ClusterIsRecognised(name);
    }
  }

  lemma KeySplits(d: Details, e: Details)
    requires d.Key() == e.Key() && |d.shortName| == |e.shortName|
    ensures d.shortName == e.shortName && d.longName == e.longName
  {
    assert d.longName == d.Key()[..|d.longName|] && e.longName == e.Key()[..|e.longName|];
    assert d.shortName == d.Key()[|d.longName|..] && e.shortName == e.Key()[|e.longName|..];
  }

  /** The long name of an option without a short name is spelled like another one's names joined. */
  predicate SpelledAlike(d: Details, e: Details) {
    d.shortName == "" && e.shortName != "" && d.longName == e.longName + e.shortName
  }

  /** Storage keys are long and short name run together, so they are distinct exactly when no two
      options are spelled alike. */
  lemma WhenKeysAreDistinct(cfg: Config)
    requires WellFormed(cfg.options)
    ensures DistinctKeys(cfg) <==>
            forall n, n' | n in cfg.options && n' in cfg.options :: !SpelledAlike(cfg.options[n], cfg.options[n'])
  {
    assert WellNamed(Config(cfg.options, [], false));
    if forall n, n' | n in cfg.options && n' in cfg.options :: !SpelledAlike(cfg.options[n], cfg.options[n']) {
      forall n, n' | n in cfg.options && n' in cfg.options && cfg.options[n].Key() == cfg.options[n'].Key()
        ensures cfg.options[n] == cfg.options[n']
      {
        var d, d' := cfg.options[n], cfg.options[n'];
        assert !SpelledAlike(d, d') && !SpelledAlike(d', d);
        assert |d.shortName| == |d'.shortName| by {
          assert d.longName + "" == d.longName && d'.longName + "" == d'.longName;
        }
        KeySplits(d, d');
      }
    } else {
      var n, n' :| n in cfg.options && n' in cfg.options && SpelledAlike(cfg.options[n], cfg.options[n']);
      assert cfg.options[n].longName + "" == cfg.options[n].longName;
      assert cfg.options[n].Key() == cfg.options[n'].Key();
    }
  }
}
