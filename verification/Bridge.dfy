/** The bridge's own code, thread by thread; every method is a run of events of `Pipeline`. */
module Bridge {
  import opened Outcomes
  import opened ThreadsafeQueue
  import opened Pipeline

  class Bridge {
    const codec: Codec
    var devices: map<string, Device>
    const inboundQ: TQueue<Item>
    /** What was sent on the PUB socket. */
    var published: seq<Publication>

    function Contents(): State
      reads this, inboundQ
    {
      State(devices, inboundQ.queue, inboundQ.maxNumberOfItems, published)
    }

    /** `start`, up to the main loop: the bound is set before any thread runs. */
    constructor (codec: Codec)
      ensures this.codec == codec && fresh(inboundQ)
      ensures Contents() == Initial(100)
    {
      this.codec, devices, published := codec, map[], [];
      inboundQ := new TQueue<Item>();
      new;
      inboundQ.SetMaxSize(100);
    }

    /** `monitorPortsThread`, for one port on which a device answered. */
    method AdmitDevice(port: string, devName: string, serial: string)
      requires Enabled(Contents(), Admit(port, devName, serial))
      modifies this`devices
      ensures Contents() == Step(codec, old(Contents()), Admit(port, devName, serial))
    {
      if port !in devices {
        var id := ChannelId(devName, serial);
        devices := devices[port := Device(id.value, true)];
      }
    }

    /** One turn of the batch loop of `relayThread`; returns whether no JSON exception was thrown. */
    method RelayOne(port: string, line: string) returns (ok: bool)
      requires Enabled(Contents(), RelayLine(port, line))
      modifies inboundQ
      ensures Contents() == Step(codec, old(Contents()), RelayLine(port, line))
      ensures ok <==> Relayable(codec, line)
    {
      var jmesg := codec.parse(line);
      if jmesg.None? || !(jmesg.value.JObject? || jmesg.value.JNull?) {
        return false;
      }
      var _ := inboundQ.Push(Item(port, Tagged(jmesg.value, devices[port].tag)));
      return true;
    }

    /** The batch loop: up to a hundred of the lines that are waiting, and no more after a bad one. */
    method RelayBatch(port: string, waiting: seq<string>) returns (used: nat)
      requires port in devices && devices[port].relaying
      modifies inboundQ
      ensures used <= |waiting| && used <= 100
      ensures Run(codec, old(Contents()), Lines(port, waiting[..used])) == Some(Contents())
      ensures used < |waiting| && used < 100 ==> used > 0 && !Relayable(codec, waiting[used - 1])
      ensures forall i | 0 <= i < used - 1 :: Relayable(codec, waiting[i])
    {
      hide Relayable;
      used := 0;
      while used < 100
        invariant used <= |waiting| && used <= 100
        invariant Run(codec, old(Contents()), Lines(port, waiting[..used])) == Some(Contents())
        invariant forall i | 0 <= i < used :: Relayable(codec, waiting[i])
      {
        if used == |waiting| {
          return;
        }
        var ok := RelayOne(port, waiting[used]);
        used := used + 1;
        LinesAppend(port, waiting, used);
        if !ok {
          return;
        }
      }
    }

    /** `relayThread` on an I/O error: the thread ends, and the device stays in the map. */
    method EndRelay(port: string)
      requires Enabled(Contents(), RelayError(port))
      modifies this`devices
      ensures Contents() == Step(codec, old(Contents()), RelayError(port))
    {
      devices := devices[port := devices[port].(relaying := false)];
    }

    /** One turn of the main loop, once an item is there. */
    method PublishOne()
      requires Enabled(Contents(), PublishNext)
      modifies this`published, inboundQ
      ensures Contents() == Step(codec, old(Contents()), PublishNext)
    {
      var item := inboundQ.Pop();
      assert old(inboundQ.queue)[1..] == inboundQ.queue;
      var topic := TopicOf(item.message);
      if topic.Some? {
        published := published + [Publication(item.port, topic.value, Erased(item.message))];
      }
    }
  }

  function Lines(port: string, lines: seq<string>): seq<Event> {
    seq(|lines|, i requires 0 <= i < |lines| => RelayLine(port, lines[i]))
  }

  lemma LinesAppend(port: string, waiting: seq<string>, used: nat)
    requires 0 < used <= |waiting|
    ensures var longer := Lines(port, waiting[..used]);
            && longer != [] && longer[|longer| - 1] == RelayLine(port, waiting[used - 1])
            && longer[..|longer| - 1] == Lines(port, waiting[..used - 1])
  {}
}
