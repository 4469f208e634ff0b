/** The port wiring of `Step.setup` in cascade_steps.py, as a function of
    the stream registry: each `port: spec` entry fetches (or creates) the
    stream its spec names, a `name:weight` spec registers the step as a
    consumer with that weight, and the port is bound to the stream. */
module Wiring {
  import opened Base
  import opened Values
  import opened Text
  import opened Streams

  /** A stream spec: `stream:weight` (split at the last `:`) or a bare stream name. */
  datatype StreamSpec = Consumer(stream: string, weight: string) | Producer(stream: string)

  /** The `':' in spec` test and the `rsplit(':', 1)` of `Step.setup`. */
  function ParseSpec(spec: string): (r: StreamSpec)
    ensures r.Producer? <==> ':' !in spec
    ensures r.Producer? ==> r.stream == spec
    ensures r.Consumer? ==> spec == r.stream + ":" + r.weight && ':' !in r.weight
  {
    match LastIndexOf(spec, ':')
    case None => Producer(spec)
    case Some(k) =>
      assert spec == spec[..k] + ":" + spec[k + 1..];
      Consumer(spec[..k], spec[k + 1..])
  }

  /** `stream:weight` parses back into the stream (which may itself hold `:`)
      and the weight, and `int()` reads the weight back. */
  lemma ParseConsumerSpec(stream: string, weight: nat)
    ensures ParseSpec(stream + ":" + NatToString(weight)) == Consumer(stream, NatToString(weight))
    ensures PyInt(JStr(NatToString(weight))) == Ok(weight)
  {
    var w := NatToString(weight);
    var spec := stream + ":" + w;
    assert spec[|stream|] == ':';
    forall t | |stream| < t < |spec| ensures spec[t] != ':' {
      assert spec[t] == w[t - |stream| - 1];
      assert IsDigit(w[t - |stream| - 1]);
    }
    LastIndexOfAt(spec, ':', |stream|);
    assert spec[..|stream|] == stream;
    assert spec[|stream| + 1..] == w;
    ParseIntOfNat(weight);
  }

  /** The consumer state of every stream together with the stream name bound
      to every port; `failed` once a weight did not parse. */
  datatype WireState = WireState(registry: map<string, Consumers>, ports: map<string, string>, failed: bool)

  /** `get_stream(name)` on the registry: a new stream has no consumers. */
  function Fetch(reg: map<string, Consumers>, s: string): (r: map<string, Consumers>)
    ensures s in r && r.Keys == reg.Keys + {s}
    ensures forall n :: n in reg ==> r[n] == reg[n]
    ensures s !in reg ==> r[s] == Consumers([], map[], map[])
  {
    if s in reg then reg else reg[s := Consumers([], map[], map[])]
  }

  /** `register_consumer(id, weight)` on one stream's consumer state. */
  function Enrol(c: Consumers, id: string, weight: int): (r: Consumers)
    ensures id in r.order && id in r.weights && r.weights[id] == weight && id in r.queues && r.queues[id] == []
    ensures forall other :: other != id ==>
      (other in r.order <==> other in c.order) && (other in r.weights <==> other in c.weights)
    ensures forall other :: other != id && other in c.weights ==> r.weights[other] == c.weights[other]
    ensures forall other :: other != id && other in c.queues ==> other in r.queues && r.queues[other] == c.queues[other]
  {
    Consumers(if id in c.order then c.order else c.order + [id], c.weights[id := weight], c.queues[id := []])
  }

  /** The stream name entry `config` refers to. */
  function StreamOf(config: (string, string)): string {
    ParseSpec(config.1).stream
  }

  /** The weight of the entry parses (or the entry is a bare stream name). */
  predicate WeightParses(config: (string, string)) {
    ParseSpec(config.1).Consumer? ==> PyInt(JStr(ParseSpec(config.1).weight)).Ok?
  }

  /** The registry after a successful entry: the stream is fetched and, for a
      consumer entry, the step enrolled with the parsed weight. */
  function Bind(reg: map<string, Consumers>, step: string, config: (string, string)): (r: map<string, Consumers>)
    requires WeightParses(config)
    ensures r.Keys == reg.Keys + {StreamOf(config)}
    ensures forall n :: n in reg && n != StreamOf(config) ==> r[n] == reg[n]
  {
    var s := StreamOf(config);
    var fetched := Fetch(reg, s);
    match ParseSpec(config.1)
    case Producer(_) => fetched
    case Consumer(_, text) => fetched[s := Enrol(fetched[s], step, PyInt(JStr(text)).value)]
  }

  /** One entry of the loop in `setup`. `get_stream` comes before `int(weight)`,
      so a bad weight leaves its stream created. Nothing happens once an
      earlier entry failed. */
  function WireOne(w: WireState, step: string, config: (string, string)): (r: WireState)
    ensures w.failed ==> r == w
    ensures r.failed <==> w.failed || !WeightParses(config)
    ensures !w.failed ==> r.registry.Keys == w.registry.Keys + {StreamOf(config)}
    ensures !r.failed ==> config.0 in r.ports && r.ports[config.0] == StreamOf(config)
  {
    if w.failed then w
    else if !WeightParses(config) then WireState(Fetch(w.registry, StreamOf(config)), w.ports, true)
    else WireState(Bind(w.registry, step, config), w.ports[config.0 := StreamOf(config)], false)
  }

  /** The loop of `setup` over the entries in order. */
  function Wire(w: WireState, step: string, configs: seq<(string, string)>): (r: WireState)
    ensures w.failed ==> r == w
    ensures w.registry.Keys <= r.registry.Keys
    ensures w.ports.Keys <= r.ports.Keys
  {
    if configs == [] then w
    else WireOne(Wire(w, step, configs[..|configs| - 1]), step, configs[|configs| - 1])
  }

  /** The port names of the entries. */
  function PortsOf(configs: seq<(string, string)>): set<string> {
    if configs == [] then {} else PortsOf(configs[..|configs| - 1]) + {configs[|configs| - 1].0}
  }

  /** The stream names of the entries. */
  function StreamsOf(configs: seq<(string, string)>): set<string> {
    if configs == [] then {} else StreamsOf(configs[..|configs| - 1]) + {StreamOf(configs[|configs| - 1])}
  }

  /** Once failed, the later entries change nothing. */
  lemma {:induction false} WireFailureStays(w: WireState, step: string, configs: seq<(string, string)>, j: nat)
    requires j <= |configs| && Wire(w, step, configs[..j]).failed
    ensures Wire(w, step, configs) == Wire(w, step, configs[..j])
    decreases |configs| - j
  {
    if j < |configs| {
      assert configs[..j + 1][..j] == configs[..j];
      WireFailureStays(w, step, configs, j + 1);
    } else {
      assert configs[..j] == configs;
    }
  }

  /** One entry fails exactly when an earlier one did or its own weight does not parse. */
  lemma WireOneFails(w: WireState, step: string, config: (string, string))
    ensures WireOne(w, step, config).failed <==> w.failed || !WeightParses(config)
  {
  }

  /** Every entry's weight parses. */
  predicate AllParse(configs: seq<(string, string)>) {
    configs == [] || (AllParse(configs[..|configs| - 1]) && WeightParses(configs[|configs| - 1]))
  }

  lemma {:induction false} AllParseEach(configs: seq<(string, string)>)
    ensures AllParse(configs) <==> forall k :: 0 <= k < |configs| ==> WeightParses(configs[k])
  {
    if configs != [] {
      var init := configs[..|configs| - 1];
      AllParseEach(init);
      assert forall k :: 0 <= k < |init| ==> init[k] == configs[k];
    }
  }

  lemma {:induction false} WireFailsAll(w: WireState, step: string, configs: seq<(string, string)>)
    requires !w.failed
    ensures Wire(w, step, configs).failed <==> !AllParse(configs)
  {
    if configs != [] {
      var init, last := configs[..|configs| - 1], configs[|configs| - 1];
      var before := Wire(w, step, init);
      assert Wire(w, step, configs) == WireOne(before, step, last);
      WireOneFails(before, step, last);
      WireFailsAll(w, step, init);
    }
  }

  /** `setup` fails exactly when some entry's weight does not parse. */
  lemma WireFails(w: WireState, step: string, configs: seq<(string, string)>)
    requires !w.failed
    ensures Wire(w, step, configs).failed <==> exists k :: 0 <= k < |configs| && !WeightParses(configs[k])
  {
    WireFailsAll(w, step, configs);
    AllParseEach(configs);
  }

  /** A successful entry comes after successful ones, binds its port and
      updates the registry by `Bind`. */
  lemma WireOneBinds(w: WireState, step: string, config: (string, string))
    requires !WireOne(w, step, config).failed
    ensures !w.failed && WeightParses(config)
    ensures WireOne(w, step, config).ports == w.ports[config.0 := StreamOf(config)]
    ensures WireOne(w, step, config).registry == Bind(w.registry, step, config)
  {
  }

  // ---------------------------------------------------------------- ports

  /** No entry repeats an earlier entry's port. */
  predicate DistinctPorts(configs: seq<(string, string)>) {
    configs == [] || (DistinctPorts(configs[..|configs| - 1]) && configs[|configs| - 1].0 !in PortsOf(configs[..|configs| - 1]))
  }

  /** Every entry's port is bound to the stream its spec names. */
  predicate BoundAll(ports: map<string, string>, configs: seq<(string, string)>) {
    configs == [] ||
    (BoundAll(ports, configs[..|configs| - 1])
     && configs[|configs| - 1].0 in ports && ports[configs[|configs| - 1].0] == StreamOf(configs[|configs| - 1]))
  }

  lemma {:induction false} PortsOfEach(configs: seq<(string, string)>, p: string)
    ensures p in PortsOf(configs) <==> exists k :: 0 <= k < |configs| && configs[k].0 == p
  {
    if configs != [] {
      var init := configs[..|configs| - 1];
      PortsOfEach(init, p);
      assert forall k :: 0 <= k < |init| ==> init[k] == configs[k];
      if p == configs[|configs| - 1].0 {
        assert configs[|configs| - 1].0 == p;
      }
    }
  }

  lemma {:induction false} DistinctPortsEach(configs: seq<(string, string)>)
    ensures DistinctPorts(configs) <==> forall a, b :: 0 <= a < b < |configs| ==> configs[a].0 != configs[b].0
  {
    if configs != [] {
      var init, last := configs[..|configs| - 1], configs[|configs| - 1];
      DistinctPortsEach(init);
      PortsOfEach(init, last.0);
      assert forall k :: 0 <= k < |init| ==> init[k] == configs[k];
    }
  }

  lemma {:induction false} BoundAllEach(ports: map<string, string>, configs: seq<(string, string)>)
    ensures BoundAll(ports, configs) <==>
      forall k :: 0 <= k < |configs| ==> configs[k].0 in ports && ports[configs[k].0] == StreamOf(configs[k])
  {
    if configs != [] {
      var init := configs[..|configs| - 1];
      BoundAllEach(ports, init);
      assert forall k :: 0 <= k < |init| ==> init[k] == configs[k];
    }
  }

  /** Binding a port no entry uses keeps every entry bound. */
  lemma {:induction false} BoundAllUpdate(ports: map<string, string>, configs: seq<(string, string)>, p: string, s: string)
    requires BoundAll(ports, configs) && p !in PortsOf(configs)
    ensures BoundAll(ports[p := s], configs)
  {
    if configs != [] {
      BoundAllUpdate(ports, configs[..|configs| - 1], p, s);
    }
  }

  lemma {:induction false} WirePortKeys(w: WireState, step: string, configs: seq<(string, string)>)
    requires !Wire(w, step, configs).failed
    ensures Wire(w, step, configs).ports.Keys == w.ports.Keys + PortsOf(configs)
  {
    if configs != [] {
      var init, last := configs[..|configs| - 1], configs[|configs| - 1];
      var before := Wire(w, step, init);
      assert Wire(w, step, configs) == WireOne(before, step, last);
      WireOneBinds(before, step, last);
      WirePortKeys(w, step, init);
    }
  }

  lemma {:induction false} WireStreamKeys(w: WireState, step: string, configs: seq<(string, string)>)
    requires !Wire(w, step, configs).failed
    ensures Wire(w, step, configs).registry.Keys == w.registry.Keys + StreamsOf(configs)
  {
    if configs != [] {
      var init, last := configs[..|configs| - 1], configs[|configs| - 1];
      var before := Wire(w, step, init);
      assert Wire(w, step, configs) == WireOne(before, step, last);
      WireOneBinds(before, step, last);
      WireStreamKeys(w, step, init);
    }
  }

  lemma {:induction false} WireBindsAll(w: WireState, step: string, configs: seq<(string, string)>)
    requires !Wire(w, step, configs).failed && DistinctPorts(configs)
    ensures BoundAll(Wire(w, step, configs).ports, configs)
  {
    if configs != [] {
      var init, last := configs[..|configs| - 1], configs[|configs| - 1];
      var before := Wire(w, step, init);
      assert Wire(w, step, configs) == WireOne(before, step, last);
      WireOneBinds(before, step, last);
      WireBindsAll(w, step, init);
      BoundAllUpdate(before.ports, init, last.0, StreamOf(last));
    }
  }

  /** After a successful `setup`, the ports are the old ones and the entries'
      ports, each entry's port bound to the stream its spec names; the
      streams are the old ones and the named ones. */
  lemma WireBinds(w: WireState, step: string, configs: seq<(string, string)>)
    requires !Wire(w, step, configs).failed
    requires forall a, b :: 0 <= a < b < |configs| ==> configs[a].0 != configs[b].0
    ensures Wire(w, step, configs).ports.Keys == w.ports.Keys + PortsOf(configs)
    ensures Wire(w, step, configs).registry.Keys == w.registry.Keys + StreamsOf(configs)
    ensures forall k :: 0 <= k < |configs| ==>
      configs[k].0 in Wire(w, step, configs).ports && Wire(w, step, configs).ports[configs[k].0] == StreamOf(configs[k])
  {
    DistinctPortsEach(configs);
    WirePortKeys(w, step, configs);
    WireStreamKeys(w, step, configs);
    WireBindsAll(w, step, configs);
    BoundAllEach(Wire(w, step, configs).ports, configs);
  }

  // ---------------------------------------------------------------- consumer registration

  /** The weight text of the last consumer entry naming stream `s`, if any. */
  function LastWeightOn(configs: seq<(string, string)>, s: string): Option<string> {
    if configs == [] then None
    else
      var last := configs[|configs| - 1];
      if ParseSpec(last.1).Consumer? && StreamOf(last) == s then Some(ParseSpec(last.1).weight)
      else LastWeightOn(configs[..|configs| - 1], s)
  }

  /** A consumer entry with no later consumer entry on its stream supplies
      that stream's last weight; a stream with a consumer entry has one. */
  lemma {:induction false} LastWeightOnAt(configs: seq<(string, string)>, k: nat)
    requires k < |configs| && ParseSpec(configs[k].1).Consumer?
    ensures LastWeightOn(configs, StreamOf(configs[k])).Some?
    ensures (forall j :: k < j < |configs| && ParseSpec(configs[j].1).Consumer? ==> StreamOf(configs[j]) != StreamOf(configs[k]))
      ==> LastWeightOn(configs, StreamOf(configs[k])) == Some(ParseSpec(configs[k].1).weight)
  {
    var init, last := configs[..|configs| - 1], configs[|configs| - 1];
    if k < |init| {
      assert init[k] == configs[k];
      LastWeightOnAt(init, k);
      assert forall j :: k < j < |init| ==> init[j] == configs[j];
    }
  }

  /** The step is enrolled in stream `s`. */
  predicate Enrolled(reg: map<string, Consumers>, s: string, step: string) {
    s in reg && step in reg[s].order && step in reg[s].weights && step in reg[s].queues
  }

  /** The step is enrolled in every stream a consumer entry names, with the
      weight of the last consumer entry on that stream. */
  ghost predicate Registered(reg: map<string, Consumers>, step: string, configs: seq<(string, string)>) {
    forall s :: LastWeightOn(configs, s).Some? ==>
      && Enrolled(reg, s, step)
      && PyInt(JStr(LastWeightOn(configs, s).value)).Ok?
      && reg[s].weights[step] == PyInt(JStr(LastWeightOn(configs, s).value)).value
  }

  /** `Bind` enrols the step on a consumer entry's stream with its weight,
      and keeps every other stream as it was. */
  lemma BindEnrols(reg: map<string, Consumers>, step: string, config: (string, string))
    requires WeightParses(config)
    ensures ParseSpec(config.1).Consumer? ==>
      && Enrolled(Bind(reg, step, config), StreamOf(config), step)
      && Bind(reg, step, config)[StreamOf(config)].weights[step] == PyInt(JStr(ParseSpec(config.1).weight)).value
    ensures Enrolled(reg, StreamOf(config), step) ==> Enrolled(Bind(reg, step, config), StreamOf(config), step)
    ensures ParseSpec(config.1).Producer? ==> Bind(reg, step, config)[StreamOf(config)] == Fetch(reg, StreamOf(config))[StreamOf(config)]
  {
  }

  lemma RegisteredStep(before: WireState, after: WireState, step: string, configs: seq<(string, string)>)
    requires configs != [] && !after.failed && after == WireOne(before, step, configs[|configs| - 1])
    requires Registered(before.registry, step, configs[..|configs| - 1])
    ensures Registered(after.registry, step, configs)
  {
    var init, last := configs[..|configs| - 1], configs[|configs| - 1];
    WireOneBinds(before, step, last);
    BindEnrols(before.registry, step, last);
    forall s | LastWeightOn(configs, s).Some?
      ensures Enrolled(after.registry, s, step)
      ensures PyInt(JStr(LastWeightOn(configs, s).value)).Ok?
      ensures after.registry[s].weights[step] == PyInt(JStr(LastWeightOn(configs, s).value)).value
    {
      if !(ParseSpec(last.1).Consumer? && StreamOf(last) == s) {
        assert LastWeightOn(configs, s) == LastWeightOn(init, s);
        if s == StreamOf(last) {
          assert before.registry[s] == after.registry[s];
        }
      }
    }
  }

  /** After a successful `setup` the step is a consumer of the stream of
      every `name:weight` entry, with the weight of the last such entry on
      that stream. */
  lemma {:induction false} WireRegisters(w: WireState, step: string, configs: seq<(string, string)>)
    requires !Wire(w, step, configs).failed
    ensures Registered(Wire(w, step, configs).registry, step, configs)
  {
    if configs != [] {
      var init, last := configs[..|configs| - 1], configs[|configs| - 1];
      var before := Wire(w, step, init);
      var after := Wire(w, step, configs);
      assert after == WireOne(before, step, last);
      WireOneBinds(before, step, last);
      WireRegisters(w, step, init);
      RegisteredStep(before, after, step, configs);
    }
  }

  // ---------------------------------------------------------------- other consumers

  /** Consumer `c` has the same place, weight and queue in `after` as in `before`. */
  predicate KeptFor(before: Consumers, after: Consumers, c: string) {
    && (c in after.order <==> c in before.order)
    && (c in after.weights <==> c in before.weights)
    && (c in before.weights ==> after.weights[c] == before.weights[c])
    && (c in before.queues ==> c in after.queues && after.queues[c] == before.queues[c])
  }

  /** Every stream stays, every consumer but `step` keeps its place, weight
      and queue, and a stream that is new holds no consumer but `step`. */
  ghost predicate KeepsOthers(before: map<string, Consumers>, after: map<string, Consumers>, step: string) {
    && before.Keys <= after.Keys
    && (forall s, c :: s in before && c != step ==> KeptFor(before[s], after[s], c))
    && (forall s, c :: s in after && s !in before && c != step ==> c !in after[s].weights && c !in after[s].order)
  }

  lemma KeepsOthersTrans(a: map<string, Consumers>, b: map<string, Consumers>, c: map<string, Consumers>, step: string)
    requires KeepsOthers(a, b, step) && KeepsOthers(b, c, step)
    ensures KeepsOthers(a, c, step)
  {
    forall s, x | s in a && x != step ensures KeptFor(a[s], c[s], x) {
      assert KeptFor(a[s], b[s], x) && KeptFor(b[s], c[s], x);
    }
    forall s, x | s in c && s !in a && x != step ensures x !in c[s].weights && x !in c[s].order {
      if s in b {
        assert KeptFor(b[s], c[s], x);
      }
    }
  }

  lemma FetchKeeps(reg: map<string, Consumers>, s: string, step: string)
    ensures KeepsOthers(reg, Fetch(reg, s), step)
  {
  }

  lemma EnrolKeeps(reg: map<string, Consumers>, s: string, step: string, weight: int)
    requires s in reg
    ensures KeepsOthers(reg, reg[s := Enrol(reg[s], step, weight)], step)
  {
    var after := reg[s := Enrol(reg[s], step, weight)];
    forall t, c | t in reg && c != step ensures KeptFor(reg[t], after[t], c) {
      if t == s {
        assert KeptFor(reg[s], Enrol(reg[s], step, weight), c);
      }
    }
  }

  lemma WireOneKeeps(w: WireState, step: string, config: (string, string))
    ensures KeepsOthers(w.registry, WireOne(w, step, config).registry, step)
  {
    if !w.failed {
      var s := StreamOf(config);
      FetchKeeps(w.registry, s, step);
      if WeightParses(config) {
        var fetched := Fetch(w.registry, s);
        match ParseSpec(config.1)
        case Producer(_) =>
        case Consumer(_, text) =>
          EnrolKeeps(fetched, s, step, PyInt(JStr(text)).value);
          KeepsOthersTrans(w.registry, fetched, Bind(w.registry, step, config), step);
      }
    }
  }

  /** Other consumers keep their place, weight and queue, and a stream the
      wiring creates holds no consumer but the step. */
  lemma {:induction false} WireKeepsOthers(w: WireState, step: string, configs: seq<(string, string)>)
    ensures KeepsOthers(w.registry, Wire(w, step, configs).registry, step)
  {
    if configs != [] {
      var init, last := configs[..|configs| - 1], configs[|configs| - 1];
      var before := Wire(w, step, init);
      assert Wire(w, step, configs) == WireOne(before, step, last);
      WireKeepsOthers(w, step, init);
      WireOneKeeps(before, step, last);
      KeepsOthersTrans(w.registry, before.registry, Wire(w, step, configs).registry, step);
    }
  }
}
