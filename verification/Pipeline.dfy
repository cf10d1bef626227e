/** The bridge as a whole: a monitor that admits devices, one relay thread per device that reads,
    tags and queues messages, and a main loop that publishes them.  The threads interleave freely;
    each event below is one critical section. */
module Pipeline {
  import opened Outcomes
  import opened OptionSyntax

  /** What the bridge distinguishes of a JSON value. */
  datatype Json = JNull | JString(s: string) | JObject(fields: map<string, Json>) | JOther(text: string)

  /** The JSON library: `parse` may throw. */
  datatype Codec = Codec(parse: string -> Option<Json>, dump: Json -> string)

  const CHANNEL: string := "channelID"
  const TOPIC_BASE: string := "/sensors/"

  // ---------- messages ----------

  /** A line that parses to something that takes a key: an object, or null, which becomes one. */
  predicate Relayable(codec: Codec, line: string) {
    var j := codec.parse(line);
    j.Some? && (j.value.JObject? || j.value.JNull?)
  }

  function Fields(j: Json): map<string, Json> {
    if j.JObject? then j.fields else map[]
  }

  /** `jmesg["channelID"] = tag` */
  function Tagged(j: Json, tag: string): Json {
    JObject(Fields(j)[CHANNEL := JString(tag)])
  }

  /** `inMessage.erase("channelID")` */
  function Erased(j: Json): Json {
    JObject(Fields(j) - {CHANNEL})
  }

  /** `"/sensors/" + inMessage["channelID"]`; absent stands for the JSON exception. */
  function TopicOf(j: Json): Option<string> {
    if CHANNEL in Fields(j) && Fields(j)[CHANNEL].JString? then Some(TOPIC_BASE + Fields(j)[CHANNEL].s) else None
  }

  /** `assignChannelID`: the device name without its last six characters, and the last four of the
      serial number; absent stands for the exception on a shorter serial number. */
  function ChannelId(devName: string, serial: string): Option<string> {
    if |serial| < 4 then None
    else
      var base := if |devName| < 6 then devName else devName[..|devName| - 6];
      Some(base + "_" + serial[|serial| - 4..])
  }

  // ---------- the state machine ----------

  datatype Device = Device(tag: string, relaying: bool)

  /** A queued message, and the port it came from. */
  datatype Item = Item(port: string, message: Json)

  datatype Publication = Publication(port: string, topic: string, payload: Json)

  datatype State = State(
    devices: map<string, Device>, queue: seq<Item>, bound: nat, published: seq<Publication>)

  datatype Event =
    | Admit(port: string, devName: string, serial: string)
    | RelayLine(port: string, line: string)
    | RelayError(port: string)
    | PublishNext

  predicate Enabled(st: State, e: Event) {
    match e
    case Admit(port, devName, serial) => port in st.devices || ChannelId(devName, serial).Some?
    case RelayLine(port, _) => port in st.devices && st.devices[port].relaying
    case RelayError(port) => port in st.devices && st.devices[port].relaying
    case PublishNext => st.queue != []
  }

  /** `TQueue::push` */
  function Pushed(st: State, item: Item): State {
    st.(bound := st.bound + 1, queue := if |st.queue| < st.bound + 1 then st.queue + [item] else st.queue)
  }

  function Step(codec: Codec, st: State, e: Event): State
    requires Enabled(st, e)
  {
    match e
    case Admit(port, devName, serial) =>
      if port in st.devices then st
      else st.(devices := st.devices[port := Device(ChannelId(devName, serial).value, true)])
    case RelayLine(port, line) =>
      if Relayable(codec, line) then
        Pushed(st, Item(port, Tagged(codec.parse(line).value, st.devices[port].tag)))
      else st
    case RelayError(port) =>
      st.(devices := st.devices[port := st.devices[port].(relaying := false)])
    case PublishNext =>
      var item := st.queue[0];
      var topic := TopicOf(item.message);
      st.(queue := st.queue[1..],
          published := if topic.Some? then
                         st.published + [Publication(item.port, topic.value, Erased(item.message))]
                       else st.published)
  }

  function Initial(maxSize: nat): State {
    State(map[], [], maxSize, [])
  }

  /** The state after some events, if each of them is enabled when it comes. */
  function Run(codec: Codec, st: State, events: seq<Event>): Option<State>
    decreases |events|
  {
    if events == [] then Some(st)
    else
      var before := Run(codec, st, events[..|events| - 1]);
      if before.Some? && Enabled(before.value, events[|events| - 1])
      then Some(Step(codec, before.value, events[|events| - 1]))
      else None
  }

  // ---------- what ought to be published ----------

  /** The channel of a port: that of the device first admitted there. */
  function TagIn(events: seq<Event>, port: string): Option<string>
    decreases |events|
  {
    if events == [] then None
    else
      var before, e := TagIn(events[..|events| - 1], port), events[|events| - 1];
      if before.None? && e.Admit? && e.port == port then ChannelId(e.devName, e.serial) else before
  }

  /** One publication for every relayable line, in the order in which the lines were relayed: under
      the channel of its port, the line without whatever channel it came with. */
  function Expected(codec: Codec, events: seq<Event>): seq<Publication>
    decreases |events|
  {
    if events == [] then []
    else
      var before, e := events[..|events| - 1], events[|events| - 1];
      Expected(codec, before)
      + if e.RelayLine? && Relayable(codec, e.line) && TagIn(before, e.port).Some? then
          [Publication(e.port, TOPIC_BASE + TagIn(before, e.port).value, Erased(codec.parse(e.line).value))]
        else []
  }

  /** What will be published of the queue. */
  function Queued(queue: seq<Item>): seq<Publication> {
    if queue == [] then []
    else
      var item, topic := queue[|queue| - 1], TopicOf(queue[|queue| - 1].message);
      Queued(queue[..|queue| - 1])
      + if topic.Some? then [Publication(item.port, topic.value, Erased(item.message))] else []
  }

  ghost predicate Inv(codec: Codec, st: State, events: seq<Event>) {
    && |st.queue| <= st.bound
    && (forall port :: port in st.devices <==> TagIn(events, port).Some?)
    && (forall port | port in st.devices :: st.devices[port].tag == TagIn(events, port).value)
    && (forall item | item in st.queue :: TopicOf(item.message).Some?)
    && st.published + Queued(st.queue) == Expected(codec, events)
  }

  lemma TaggedMessage(j: Json, tag: string)
    ensures TopicOf(Tagged(j, tag)) == Some(TOPIC_BASE + tag)
    ensures Erased(Tagged(j, tag)) == Erased(j)
  {
    assert Fields(Tagged(j, tag)) - {CHANNEL} == Fields(j) - {CHANNEL};
  }

  lemma QueuedAppend(queue: seq<Item>, item: Item)
    ensures Queued(queue + [item]) == Queued(queue) + Queued([item])
  {
    assert (queue + [item])[..|queue|] == queue && [item][..0] == [];
  }

  lemma {:induction false} QueuedHead(queue: seq<Item>)
    requires queue != []
    ensures Queued(queue) == Queued(queue[..1]) + Queued(queue[1..])
  {
    var init := queue[..|queue| - 1];
    if init == [] {
      assert queue[..1] == queue;
    } else {
      QueuedHead(init);
      assert init[..1] == queue[..1] && init[1..] == queue[1..][..|queue| - 2];
    }
  }

  lemma RelayKeepsInv(codec: Codec, st: State, events: seq<Event>, port: string, line: string)
    requires Inv(codec, st, events) && Enabled(st, RelayLine(port, line))
    ensures Inv(codec, Step(codec, st, RelayLine(port, line)), events + [RelayLine(port, line)])
  {
    hide TopicOf, Erased, Tagged;
    var longer := events + [RelayLine(port, line)];
    assert longer[..|longer| - 1] == events && longer[|longer| - 1] == RelayLine(port, line);
    if Relayable(codec, line) {
      var j, tag := codec.parse(line).value, st.devices[port].tag;
      var item := Item(port, Tagged(j, tag));
      TaggedMessage(j, tag);
      QueuedAppend(st.queue, item);
      QueuedOne(item);
      hide Queued;
      var p := Publication(port, TOPIC_BASE + tag, Erased(j));
      assert Queued([item]) == [p];
      assert st.published + (Queued(st.queue) + [p]) == Expected(codec, events) + [p];
      assert Expected(codec, longer) == Expected(codec, events) + [p];
    } else {
      assert Expected(codec, longer) == Expected(codec, events) + [];
    }
  }

  lemma QueuedOne(item: Item)
    ensures Queued([item]) ==
            var topic := TopicOf(item.message);
            if topic.Some? then [Publication(item.port, topic.value, Erased(item.message))] else []
  {
    hide TopicOf, Erased;
    assert [item][..0] == [];
  }

  lemma PublishKeepsInv(codec: Codec, st: State, events: seq<Event>)
    requires Inv(codec, st, events) && Enabled(st, PublishNext)
    ensures Inv(codec, Step(codec, st, PublishNext), events + [PublishNext])
  {
    hide TopicOf, Erased, Queued;
    var longer := events + [PublishNext];
    assert longer[..|longer| - 1] == events && longer[|longer| - 1] == PublishNext;
    assert Expected(codec, longer) == Expected(codec, events) + [];
    hide Expected;
    QueuedHead(st.queue);
    assert st.queue[..1] == [st.queue[0]];
    QueuedOne(st.queue[0]);
    var first, rest := Queued([st.queue[0]]), Queued(st.queue[1..]);
    assert Step(codec, st, PublishNext).published == st.published + first;
    assert (st.published + first) + rest == st.published + (first + rest);
  }

  lemma DeviceEventKeepsInv(codec: Codec, st: State, events: seq<Event>, e: Event)
    requires Inv(codec, st, events) && Enabled(st, e) && (e.Admit? || e.RelayError?)
    ensures Inv(codec, Step(codec, st, e), events + [e])
  {
    hide ChannelId, Queued;
    var longer := events + [e];
    assert longer[..|longer| - 1] == events && longer[|longer| - 1] == e;
    assert Expected(codec, longer) == Expected(codec, events) + [];
  }

  lemma StepKeepsInv(codec: Codec, st: State, events: seq<Event>, e: Event)
    requires Inv(codec, st, events) && Enabled(st, e)
    ensures Inv(codec, Step(codec, st, e), events + [e])
  {
    hide Inv, Step, Enabled;
    match e
    case RelayLine(port, line) => RelayKeepsInv(codec, st, events, port, line);
    case PublishNext => PublishKeepsInv(codec, st, events);
    case Admit(_, _, _) => DeviceEventKeepsInv(codec, st, events, e);
    case RelayError(_) => DeviceEventKeepsInv(codec, st, events, e);
  }

  /** Order and conservation: in every run, from any bound and under every interleaving, what was
      published followed by what is queued is one publication for each relayed line, in order.  No
      push is dropped: the queue is within its bound whenever a line is relayed. */
  lemma {:induction false} NothingLostOrReordered(codec: Codec, maxSize: nat, events: seq<Event>)
    requires Run(codec, Initial(maxSize), events).Some?
    ensures Inv(codec, Run(codec, Initial(maxSize), events).value, events)
    decreases |events|
  {
    hide Step, Enabled, Inv;
    if events == [] {
      assert Inv(codec, Initial(maxSize), []) by { StartKeepsInv(codec, maxSize); }
    } else {
      var before, e := events[..|events| - 1], events[|events| - 1];
      NothingLostOrReordered(codec, maxSize, before);
      StepKeepsInv(codec, Run(codec, Initial(maxSize), before).value, before, e);
      assert events == before + [e];
    }
  }

  lemma StartKeepsInv(codec: Codec, maxSize: nat)
    ensures Inv(codec, Initial(maxSize), [])
  {}

  function FromPort(list: seq<Publication>, port: string): seq<Publication> {
    if list == [] then []
    else FromPort(list[..|list| - 1], port) + if list[|list| - 1].port == port then [list[|list| - 1]] else []
  }

  lemma {:induction false} FromPortConcat(a: seq<Publication>, b: seq<Publication>, port: string)
    ensures FromPort(a + b, port) == FromPort(a, port) + FromPort(b, port)
    decreases |b|
  {
    if b == [] {
      assert a + b == a;
    } else {
      FromPortConcat(a, b[..|b| - 1], port);
      assert (a + b)[..|a + b| - 1] == a + b[..|b| - 1];
    }
  }

  /** So each device's messages are published in the order in which it sent them, none twice. */
  lemma EachDeviceInOrder(codec: Codec, maxSize: nat, events: seq<Event>, port: string)
    requires Run(codec, Initial(maxSize), events).Some?
    ensures var st := Run(codec, Initial(maxSize), events).value;
            FromPort(st.published, port) + FromPort(Queued(st.queue), port) == FromPort(Expected(codec, events), port)
  {
    hide FromPort, Expected, Queued;
    NothingLostOrReordered(codec, maxSize, events);
    var st := Run(codec, Initial(maxSize), events).value;
    FromPortConcat(st.published, Queued(st.queue), port);
  }

  // ---------- the publications, one by one ----------

  /** The line parses to an object, or to null, which takes a key like an empty object. */
  predicate RelaysObject(codec: Codec, e: Event) {
    e.RelayLine? &&
    match codec.parse(e.line)
    case Some(JObject(_)) => true
    case Some(JNull) => true
    case _ => false
  }

  /** The places of the events that relay such a line. */
  function Relays(codec: Codec, events: seq<Event>): (places: seq<nat>)
    ensures forall k | 0 <= k < |places| :: places[k] < |events| && RelaysObject(codec, events[places[k]])
    ensures forall i | 0 <= i < |events| && RelaysObject(codec, events[i]) :: i in places
    ensures forall j, k | 0 <= j < k < |places| :: places[j] < places[k]
    decreases |events|
  {
    if events == [] then []
    else
      var n := |events| - 1;
      Relays(codec, events[..n]) + if RelaysObject(codec, events[n]) then [n] else []
  }

  lemma {:induction false} ExpectedAt(codec: Codec, maxSize: nat, events: seq<Event>)
    requires Run(codec, Initial(maxSize), events).Some?
    ensures var places, list := Relays(codec, events), Expected(codec, events);
            && |places| == |list|
            && forall k | 0 <= k < |places| ::
                 var e, before := events[places[k]], events[..places[k]];
                 && TagIn(before, e.port).Some?
                 && list[k] == Publication(e.port, TOPIC_BASE + TagIn(before, e.port).value,
                                           Erased(codec.parse(e.line).value))
    decreases |events|
  {
    hide Erased, TagIn, Inv;
    if events != [] {
      var n := |events| - 1;
      var before, e := events[..n], events[n];
      ExpectedAt(codec, maxSize, before);
      assert forall i: nat | i < n :: events[..i] == before[..i];
      if RelaysObject(codec, e) {
        NothingLostOrReordered(codec, maxSize, before);
        RelayingPortHasTag(codec, Run(codec, Initial(maxSize), before).value, before, e);
      }
    }
  }

  lemma RelayingPortHasTag(codec: Codec, st: State, events: seq<Event>, e: Event)
    requires Inv(codec, st, events) && Enabled(st, e) && e.RelayLine?
    ensures TagIn(events, e.port).Some?
  {}

  lemma {:induction false} TagOfFirstAdmission(events: seq<Event>, port: string) returns (a: nat)
    requires TagIn(events, port).Some?
    ensures a < |events| && events[a].Admit? && events[a].port == port
    ensures ChannelId(events[a].devName, events[a].serial) == TagIn(events, port)
    ensures forall b | 0 <= b < a && events[b].Admit? && events[b].port == port :: |events[b].serial| < 4
    decreases |events|
  {
    var before, e := events[..|events| - 1], events[|events| - 1];
    if TagIn(before, port).Some? {
      a := TagOfFirstAdmission(before, port);
    } else {
      a := |events| - 1;
      NoTagBefore(before, port);
    }
  }

  lemma {:induction false} NoTagBefore(events: seq<Event>, port: string)
    requires TagIn(events, port).None?
    ensures forall b | 0 <= b < |events| && events[b].Admit? && events[b].port == port :: |events[b].serial| < 4
    decreases |events|
  {
    if events != [] {
      NoTagBefore(events[..|events| - 1], port);
    }
  }

  /** Each publication is one relayed line, in order: under the name of the device first admitted at its
      port, less six characters, and the end of its serial number; with every key of the line but the
      channel key, and the values they have there. */
  lemma PublicationIsItsLine(codec: Codec, maxSize: nat, events: seq<Event>, k: nat) returns (i: nat, a: nat)
    requires Run(codec, Initial(maxSize), events).Some?
    requires k < |Run(codec, Initial(maxSize), events).value.published|
    ensures k < |Relays(codec, events)| && i == Relays(codec, events)[k] && codec.parse(events[i].line).Some?
    ensures a < i && events[a].Admit? && events[a].port == events[i].port && |events[a].serial| >= 4
    ensures forall b | 0 <= b < a && events[b].Admit? && events[b].port == events[i].port :: |events[b].serial| < 4
    ensures var p := Run(codec, Initial(maxSize), events).value.published[k];
            var name, serial := events[a].devName, events[a].serial;
            && p.port == events[i].port
            && p.topic == "/sensors/" + (if |name| < 6 then name else name[..|name| - 6])
                          + "_" + serial[|serial| - 4..]
    ensures var p := Run(codec, Initial(maxSize), events).value.published[k];
            var j := codec.parse(events[i].line).value;
            var sent := if j.JObject? then j.fields else map[];
            && p.payload.JObject? && p.payload.fields.Keys == sent.Keys - {"channelID"}
            && forall key | key in p.payload.fields :: p.payload.fields[key] == sent[key]
  {
    hide Expected, Queued, TagIn, Run, Relays;
    NothingLostOrReordered(codec, maxSize, events);
    ExpectedAt(codec, maxSize, events);
    i := Relays(codec, events)[k];
    a := TagOfFirstAdmission(events[..i], events[i].port);
    var name, serial := events[a].devName, events[a].serial;
    var base := if |name| < 6 then name else name[..|name| - 6];
    assert "/sensors/" + (base + "_" + serial[|serial| - 4..]) == "/sensors/" + base + "_" + serial[|serial| - 4..];
  }

  /** The queue holds the lines that are not yet published. */
  lemma QueueHoldsTheRest(codec: Codec, maxSize: nat, events: seq<Event>)
    requires Run(codec, Initial(maxSize), events).Some?
    ensures var st := Run(codec, Initial(maxSize), events).value;
            |st.published| + |st.queue| == |Relays(codec, events)| && |st.queue| <= st.bound
  {
    hide Expected, Queued, TagIn, Run, Relays, TopicOf;
    NothingLostOrReordered(codec, maxSize, events);
    ExpectedAt(codec, maxSize, events);
    QueuedLength(Run(codec, Initial(maxSize), events).value.queue);
  }

  lemma {:induction false} QueuedLength(queue: seq<Item>)
    requires forall item | item in queue :: TopicOf(item.message).Some?
    ensures |Queued(queue)| == |queue|
  {
    hide TopicOf;
    if queue != [] {
      QueuedLength(queue[..|queue| - 1]);
    }
  }

  // ---------- when a relay runs ----------

  predicate Admitted(events: seq<Event>, port: string) {
    exists i | 0 <= i < |events| :: events[i].Admit? && events[i].port == port
  }

  predicate Failed(events: seq<Event>, port: string) {
    exists i | 0 <= i < |events| :: events[i].RelayError? && events[i].port == port
  }

  lemma HistoryAppend(events: seq<Event>, port: string)
    requires events != []
    ensures var before, e := events[..|events| - 1], events[|events| - 1];
            && (Admitted(events, port) <==> Admitted(before, port) || (e.Admit? && e.port == port))
            && (Failed(events, port) <==> Failed(before, port) || (e.RelayError? && e.port == port))
  {
    var n := |events| - 1;
    assert forall i | 0 <= i < n :: events[i] == events[..n][i];
  }

  lemma DevicesAfter(codec: Codec, st: State, e: Event, port: string)
    requires Enabled(st, e)
    ensures var devices, devices' := st.devices, Step(codec, st, e).devices;
            && (port in devices' <==> port in devices || (e.Admit? && e.port == port))
            && (port in devices' && devices'[port].relaying <==>
                  && !(e.RelayError? && e.port == port)
                  && (if port in devices then devices[port].relaying else e.Admit? && e.port == port))
  {
    hide Relayable, Tagged, TopicOf, Erased, ChannelId;
  }

  /** In every run a device's lines are relayed from its admission on until an error ends its relay, and
      never again after that. */
  lemma {:induction false} RelayRunsUntilError(
    codec: Codec, maxSize: nat, events: seq<Event>, port: string, line: string)
    requires Run(codec, Initial(maxSize), events).Some?
    ensures var st := Run(codec, Initial(maxSize), events).value;
            && (port in st.devices <==> Admitted(events, port))
            && (Enabled(st, RelayLine(port, line)) <==> Admitted(events, port) && !Failed(events, port))
            && (Failed(events, port) ==> Admitted(events, port))
    decreases |events|
  {
    if events != [] {
      var before, e := events[..|events| - 1], events[|events| - 1];
      RelayRunsUntilError(codec, maxSize, before, port, line);
      HistoryAppend(events, port);
      var st := Run(codec, Initial(maxSize), before).value;
      DevicesAfter(codec, st, e, port);
      hide Step, Admitted, Failed;
    }
  }

  /** A relay that ended on an error is never heard of again: its port stays in the device map, so the
      monitor starts no other relay there. */
  lemma DeadPortStaysSilent(codec: Codec, maxSize: nat, events: seq<Event>, i: nat, j: nat)
    requires Run(codec, Initial(maxSize), events).Some?
    requires i < j < |events| && events[i].RelayError?
    ensures events[j].RelayLine? ==> events[j].port != events[i].port
  {
    RunPrefix(codec, Initial(maxSize), events, j + 1);
    var now := events[..j + 1];
    assert now[..|now| - 1] == events[..j] && now[|now| - 1] == events[j];
    DeadStaysDead(codec, Initial(maxSize), events[..j], i);
  }

  lemma {:induction false} RunPrefix(codec: Codec, st: State, events: seq<Event>, i: nat)
    requires Run(codec, st, events).Some? && i <= |events|
    ensures Run(codec, st, events[..i]).Some?
    decreases |events|
  {
    if i < |events| {
      RunPrefix(codec, st, events[..|events| - 1], i);
      assert events[..|events| - 1][..i] == events[..i];
    } else {
      assert events[..i] == events;
    }
  }

  lemma {:induction false} DeadStaysDead(codec: Codec, st: State, events: seq<Event>, i: nat)
    requires i < |events| && events[i].RelayError? && Run(codec, st, events).Some?
    ensures var after := Run(codec, st, events).value;
            events[i].port in after.devices && !after.devices[events[i].port].relaying
    decreases |events|
  {
    hide Relayable, Tagged, TopicOf, Erased;
    if i + 1 < |events| {
      DeadStaysDead(codec, st, events[..|events| - 1], i);
    }
  }

  // ---------- framing ----------

  /** `Streamer::publish` */
  function Frame(codec: Codec, topic: string, payload: Json): string {
    topic + "#" + codec.dump(payload)
  }

  /** `splitMessage`: at the first `#`; without one, topic and data are both the whole message. */
  function SplitMessage(codec: Codec, message: string): (string, Option<Json>) {
    var i := IndexOf(message, '#');
    if i == |message| then (message, codec.parse(message)) else (message[..i], codec.parse(message[i + 1..]))
  }

  /** The client gets topic and payload back exactly when the topic has no `#`. */
  lemma SplitUndoesFrame(codec: Codec, topic: string, payload: Json)
    requires codec.parse(codec.dump(payload)) == Some(payload)
    ensures SplitMessage(codec, Frame(codec, topic, payload)) == (topic, Some(payload)) <==> '#' !in topic
  {
    var data := codec.dump(payload);
    var message := topic + ['#'] + data;
    assert message == Frame(codec, topic, payload);
    if '#' !in topic {
      IndexOfFirst(topic, '#', data);
      assert message[..|topic|] == topic && message[|topic| + 1..] == data;
    } else {
      var i :| 0 <= i < |topic| && topic[i] == '#';
      assert message[i] == '#';
      assert IndexOf(message, '#') <= i;
      assert |SplitMessage(codec, message).0| < |topic|;
    }
  }

  /** A message without a separator is both topic and data. */
  lemma WithoutSeparator(codec: Codec, message: string)
    requires '#' !in message
    ensures SplitMessage(codec, message) == (message, codec.parse(message))
  {
    IndexOfAbsent(message, '#');
  }

  /** Every message that is published reaches a client as the line its device sent, less the channel
      key, under the device's own topic, unless the channel contains a `#`. */
  lemma ClientsGetWhatDevicesSent(codec: Codec, maxSize: nat, events: seq<Event>, k: nat)
    requires Run(codec, Initial(maxSize), events).Some?
    requires forall j :: codec.parse(codec.dump(j)) == Some(j)
    requires k < |Run(codec, Initial(maxSize), events).value.published|
    ensures k < |Expected(codec, events)|
    ensures var p := Run(codec, Initial(maxSize), events).value.published[k];
            && p == Expected(codec, events)[k]
            && Frame(codec, p.topic, p.payload) == p.topic + "#" + codec.dump(p.payload)
            && (SplitMessage(codec, Frame(codec, p.topic, p.payload)) == (p.topic, Some(p.payload))
                <==> '#' !in p.topic)
  {
    hide Expected, Queued, SplitMessage;
    NothingLostOrReordered(codec, maxSize, events);
    var p := Run(codec, Initial(maxSize), events).value.published[k];
    SplitUndoesFrame(codec, p.topic, p.payload);
  }
}
