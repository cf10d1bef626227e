/** Printing named values as `--name=value` tokens and parsing them back. */
module RenderRoundTrip {
  import opened Outcomes
  import opened OptionSyntax
  import opened OptionValues
  import opened OptionParsing
  import opened ParsedState

  function Render(list: seq<KeyValue>): seq<string> {
    if list == [] then []
    else ["--" + list[0].key + "=" + list[0].value] + Render(list[1..])
  }

  /** The entry names a string option by its long name, and its value has no line break. */
  predicate Renderable(cfg: Config, e: KeyValue) {
    && IsLongName(e.key) && IsText(e.value)
    && e.key in cfg.options
    && cfg.options[e.key].longName == e.key && cfg.options[e.key].kind == Scalar(Text)
  }

  /** Every default text is a value of its option's type. */
  ghost predicate DefaultsParse(cfg: Config) {
    forall n | n in cfg.options && cfg.options[n].hasDefault ::
      ParseInto(cfg.options[n].kind, cfg.options[n].defaultText, Initial(cfg.options[n].kind)).Success?
  }

  lemma RenderedStep(cfg: Config, st: State, e: KeyValue, rest: seq<string>)
    requires DistinctKeys(cfg) && Agrees(cfg, st.store) && Renderable(cfg, e)
    ensures var token := "--" + e.key + "=" + e.value;
            var m := Step(cfg, st, [token] + rest);
            && token != "--"
            && m.Success? && m.value.width == 1
            && m.value.state.store.log == st.store.log + [e]
            && m.value.state.next == st.next && m.value.state.unmatched == st.unmatched
            && Agrees(cfg, m.value.state.store)
  {
    hide Classify;
    LongWithValueIsRecognised(e.key, e.value);
    var token := "--" + e.key + "=" + e.value;
    assert |token| > 2;
    var d := cfg.options[e.key];
    assert OptionAgrees(cfg, st.store, e.key);
    assert StoreOption(st.store, d, e.value).Success?;
    StepAgrees(cfg, st, [token] + rest);
  }

  lemma {:induction false} RenderedLoop(cfg: Config, st: State, list: seq<KeyValue>)
    requires DistinctKeys(cfg) && Agrees(cfg, st.store)
    requires forall e | e in list :: Renderable(cfg, e)
    ensures var ended := Loop(cfg, st, Render(list));
            && ended.Success? && ended.value.rest.None?
            && ended.value.state.store.log == st.store.log + list
            && ended.value.state.unmatched == st.unmatched
            && Agrees(cfg, ended.value.state.store)
    decreases |list|
  {
    hide Step, Agrees, DistinctKeys, Renderable;
    if list != [] {
      var rest := Render(list[1..]);
      RenderedStep(cfg, st, list[0], rest);
      var m := Step(cfg, st, Render(list)).value;
      assert Render(list)[1..] == rest;
      RenderedLoop(cfg, m.state, list[1..]);
      assert st.store.log + [list[0]] + list[1..] == st.store.log + list;
    }
  }

  /** Rendering and parsing undo each other. */
  lemma ParseUndoesRender(cfg: Config, order: seq<string>, list: seq<KeyValue>)
    requires DistinctKeys(cfg) && IsOrder(cfg, order) && DefaultsParse(cfg)
    requires forall e | e in list :: Renderable(cfg, e)
    ensures var r := Parse(cfg, order, Render(list));
            r.Success? && r.value.arguments == list && r.value.unmatched == []
  {
    hide Loop, ApplyDefaults, Aliases, EmplaceAll, Render, Initial, SlotAgrees, OwnLongName;
    StartAgrees(cfg);
    RenderedLoop(cfg, START, list);
    var store := Loop(cfg, START, Render(list)).value.state.store;
    DefaultsArePointwise(cfg, store, order);
    forall i | 0 <= i < |order|
      ensures DefaultedSlot(cfg.options[order[i]], Slot(store.parsed, cfg.options[order[i]].Key())).Success?
    {
      assert OptionAgrees(cfg, store, order[i]);
    }
    assert START.store.log + list == list;
  }
}
