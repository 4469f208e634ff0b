/** The steps of cascade_steps.py: `Step.setup`, one round of the loops of
    `TransformStep.run` and `SinkStep.run`, and `SourceStep.run`, first as
    functions of the stream registry (every stream's consumer state, by
    stream name) and the store, then as the methods of a `Step` object wired
    to a `CascadeManager`. A step's own `process` and `generate` bodies are
    the parameters `process` and `gen`; `hash` is the parameter `h`. */
module Steps {
  import opened Base
  import opened Values
  import opened Text
  import opened Store
  import opened Streams
  import opened Lineage
  import opened Unroll
  import opened Wiring
  import opened IdeaSource
  import opened Manager
  import Sorting

  // ---------------------------------------------------------------- ids and setup hooks

  /** The deterministic id of a source's `i`-th item: `f"{name}:count={i}"`.
      Its step name is the source's own name, so `unroll` files the item
      under that name. */
  function RootId(step: string, i: nat): (r: string)
    ensures ':' !in step ==> StepName(r) == step
  {
    var id := step + ":count=" + NatToString(i);
    assert ':' !in step ==> StepName(id) == step by {
      if ':' !in step {
        assert id[|step|] == ':' && id[..|step|] == step;
      }
    }
    id
  }

  /** A source item's id is the id `derive_cascade_id` gives a message
      without parent for the step with the one parameter `count=i`. */
  lemma RootIdIsDerived(step: string, i: nat)
    ensures RootId(step, i) == DeriveId("", step, [("count", NatToString(i))])
  {
    var ps := [("count", NatToString(i))];
    var sorted := Sorting.SortBy(ps, ParamLe);
    assert sorted[0] in multiset(sorted);
    assert sorted == ps;
    var rendered := RenderParams(sorted);
    assert rendered == [rendered[0]];
  }

  /** Distinct item numbers give distinct ids. */
  lemma RootIdInjective(step: string, i: nat, j: nat)
    requires RootId(step, i) == RootId(step, j)
    ensures i == j
  {
    var p := step + ":count=";
    assert RootId(step, i)[|p|..] == NatToString(i);
    assert RootId(step, j)[|p|..] == NatToString(j);
    NatToStringInjective(i, j);
  }

  /** The step classes of cascade_steps.py whose `_setup` differs. */
  datatype StepKind = IdeaSourceStep | ExpandTemplateStep | LlmCompletionStep | JsonSinkStep | PlainStep

  /** What `_setup()` raises, if anything: the idea source needs `count` and
      `schema`; the template expansion reads `params['template']`; the LLM
      completion needs a truthy `model`. */
  function SetupHook(kind: StepKind, params: map<string, Json>): (r: Option<PyError>)
    ensures r.Some? ==> kind in {IdeaSourceStep, ExpandTemplateStep, LlmCompletionStep}
    ensures kind == IdeaSourceStep ==> (r == None <==> "count" in params && "schema" in params)
    ensures kind == ExpandTemplateStep ==> (r == None <==> "template" in params)
    ensures kind == LlmCompletionStep ==> (r == None <==> "model" in params && Truthy(params["model"]))
  {
    match kind
    case IdeaSourceStep => IdeaSetup(params)
    case ExpandTemplateStep => if "template" in params then None else Some(KeyError)
    case LlmCompletionStep => if Truthy(GetOr(params, "model", JNull)) then None else Some(StepError)
    case _ => None
  }

  // ---------------------------------------------------------------- the registry

  /** Every port's stream is in the registry. */
  predicate PortsIn(ports: map<string, string>, reg: map<string, Consumers>) {
    forall p :: p in ports ==> ports[p] in reg
  }

  /** `get(consumer)` on stream `s`: the head of the consumer's queue is taken. */
  function Pop(reg: map<string, Consumers>, s: string, consumer: string): (r: map<string, Consumers>)
    requires s in reg && consumer in reg[s].queues && reg[s].queues[consumer] != []
    ensures r.Keys == reg.Keys
  {
    reg[s := reg[s].(queues := reg[s].queues[consumer := reg[s].queues[consumer][1..]])]
  }

  /** The routing of `put(msg)` on stream `s`. */
  function Route(reg: map<string, Consumers>, s: string, msg: Message, h: string -> int): (r: map<string, Consumers>)
    requires s in reg
    ensures r.Keys == reg.Keys
  {
    reg[s := reg[s].(queues := Deliver(reg[s].queues, reg[s].order, reg[s].weights, msg, h))]
  }

  /** The metadata of every message a step emits. */
  function Provenance(step: string): map<string, Json> {
    map["source_step" := JStr(step)]
  }

  // ---------------------------------------------------------------- transform

  /** How one round of `TransformStep.run` ends: waiting for input; an
      exception (printed, and the loop goes on); the output id already
      stored; `process` returned None; or a new message put on `output`. */
  datatype Outcome = Blocked | Failed(error: PyError) | Skipped(id: string) | Dropped(id: string) | Published(msg: Message)

  /** The outcome of one round, whether the step is left active (it
      received a message), and the registry and store after it. */
  datatype Effect = Effect(outcome: Outcome, active: bool, registry: map<string, Consumers>, log: seq<Row>)

  /** One round of the loop of `TransformStep.run` for step `step` whose
      ports are bound to the streams `ports`. */
  function TransformIteration(reg: map<string, Consumers>, log: seq<Row>, ports: map<string, string>, step: string,
                              process: Json -> Result<Json>, h: string -> int): (r: Effect)
    requires PortsIn(ports, reg)
    ensures r.active <==> InputHead(reg, ports, step).Some?
    ensures !r.active ==> r.registry == reg && r.log == log
  {
    if "input" !in ports then Effect(Failed(KeyError), false, reg, log)
    else
      var queues := reg[ports["input"]].queues;
      if step !in queues then Effect(Failed(ValueError), false, reg, log)
      else if queues[step] == [] then Effect(Blocked, false, reg, log)
      else TransformMessage(Pop(reg, ports["input"], step), log, ports, step, queues[step][0], process, h)
  }

  /** The rest of a round once `msg` has been taken off the input queue,
      leaving the registry `reg`: the output id is the message's id
      extended by the step name; the `output` port is looked up, the store
      is checked for that id, then `process` runs. */
  function TransformMessage(reg: map<string, Consumers>, log: seq<Row>, ports: map<string, string>, step: string,
                            msg: Message, process: Json -> Result<Json>, h: string -> int): (r: Effect)
    requires PortsIn(ports, reg)
    ensures r.active
  {
    var id := DeriveId(msg.cascadeId, step, []);
    if "output" !in ports then Effect(Failed(KeyError), true, reg, log)
    else if HasKey(log, ports["output"], id) then Effect(Skipped(id), true, reg, log)
    else match process(msg.payload)
      case Err(e) => Effect(Failed(e), true, reg, log)
      case Ok(v) =>
        if v == JNull then Effect(Dropped(id), true, reg, log)
        else
          var out := Message(id, v, Provenance(step));
          Effect(Published(out), true, Route(reg, ports["output"], out, h), log + [Row(ports["output"], out)])
  }

  /** The head of the step's queue on its input stream, if there is one. */
  function InputHead(reg: map<string, Consumers>, ports: map<string, string>, step: string): Option<Message>
    requires PortsIn(ports, reg)
  {
    if "input" in ports && step in reg[ports["input"]].queues && reg[ports["input"]].queues[step] != []
    then Some(reg[ports["input"]].queues[step][0])
    else None
  }

  /** A row stays in the store as the store grows. */
  lemma HasKeyGrows(log: seq<Row>, more: seq<Row>, s: string, id: string)
    requires HasKey(log, s, id)
    ensures HasKey(log + more, s, id)
  {
    var k :| 0 <= k < |log| && log[k].stream == s && log[k].msg.cascadeId == id;
    assert (log + more)[k] == log[k];
  }

  /** When the output id of the head message is already stored, the round
      only consumes the message: nothing is processed, stored or routed. */
  lemma TransformSkipsExisting(reg: map<string, Consumers>, log: seq<Row>, ports: map<string, string>, step: string,
                               process: Json -> Result<Json>, h: string -> int)
    requires PortsIn(ports, reg) && "output" in ports && InputHead(reg, ports, step).Some?
    requires HasKey(log, ports["output"], DeriveId(InputHead(reg, ports, step).value.cascadeId, step, []))
    ensures var e := TransformIteration(reg, log, ports, step, process, h);
      && e.outcome == Skipped(DeriveId(InputHead(reg, ports, step).value.cascadeId, step, []))
      && e.active && e.log == log && e.registry == Pop(reg, ports["input"], step)
  {
  }

  /** A published message is the `process` result for the head message under
      the head's id extended by the step name, tagged with the step; it is
      new to the output stream and is stored and routed there. The store
      keeps its primary key. */
  lemma TransformPublishes(reg: map<string, Consumers>, log: seq<Row>, ports: map<string, string>, step: string,
                           process: Json -> Result<Json>, h: string -> int)
    requires PortsIn(ports, reg)
    requires TransformIteration(reg, log, ports, step, process, h).outcome.Published?
    ensures "input" in ports && "output" in ports && InputHead(reg, ports, step).Some?
    ensures var e := TransformIteration(reg, log, ports, step, process, h);
      var head := InputHead(reg, ports, step).value;
      var out := e.outcome.msg;
      && out.cascadeId == DeriveId(head.cascadeId, step, [])
      && process(head.payload) == Ok(out.payload) && out.payload != JNull
      && out.metadata == Provenance(step)
      && !HasKey(log, ports["output"], out.cascadeId)
      && e.log == log + [Row(ports["output"], out)]
      && e.registry == Route(Pop(reg, ports["input"], step), ports["output"], out, h)
      && (UniqueKeys(log) ==> UniqueKeys(e.log))
  {
    var e := TransformIteration(reg, log, ports, step, process, h);
    if UniqueKeys(log) {
      AppendUnique(log, Row(ports["output"], e.outcome.msg));
    }
  }

  /** Idempotency: once a message was published for an input, the same
      input delivered again (say after a restart replays the input stream)
      is skipped, whatever `process` would now return, as long as the store
      has kept what it held. */
  lemma TransformRedeliverySkips(reg: map<string, Consumers>, log: seq<Row>, ports: map<string, string>, step: string,
                                 process: Json -> Result<Json>, h: string -> int,
                                 reg2: map<string, Consumers>, log2: seq<Row>, process2: Json -> Result<Json>, h2: string -> int)
    requires PortsIn(ports, reg) && PortsIn(ports, reg2)
    requires TransformIteration(reg, log, ports, step, process, h).outcome.Published?
    requires TransformIteration(reg, log, ports, step, process, h).log <= log2
    requires InputHead(reg2, ports, step).Some? && InputHead(reg, ports, step).Some?
    requires InputHead(reg2, ports, step).value.cascadeId == InputHead(reg, ports, step).value.cascadeId
    ensures TransformIteration(reg2, log2, ports, step, process2, h2).outcome
         == Skipped(TransformIteration(reg, log, ports, step, process, h).outcome.msg.cascadeId)
  {
    var e := TransformIteration(reg, log, ports, step, process, h);
    TransformPublishes(reg, log, ports, step, process, h);
    var out := e.outcome.msg;
    assert e.log[|log|] == Row(ports["output"], out);
    assert log2[|log|] == e.log[|log|];
    assert HasKey(log2, ports["output"], out.cascadeId);
    TransformSkipsExisting(reg2, log2, ports, step, process2, h2);
  }

  // ---------------------------------------------------------------- source

  /** The registry, the store and the exception, if any, of a source run. */
  datatype Emission = Emission(registry: map<string, Consumers>, log: seq<Row>, error: Option<PyError>)

  /** Item `i` of the loop of `SourceStep.run` on the stream `out`: nothing
      after an exception; an item whose id is stored is skipped without
      calling `generate`; a None item is dropped; an exception ends the loop. */
  function SourceItem(e: Emission, out: string, step: string, gen: nat -> Result<Json>, h: string -> int, i: nat): (r: Emission)
    requires out in e.registry
    ensures r.registry.Keys == e.registry.Keys
  {
    var id := RootId(step, i);
    if e.error.Some? || HasKey(e.log, out, id) then e
    else match gen(i)
      case Err(err) => Emission(e.registry, e.log, Some(err))
      case Ok(v) =>
        if v == JNull then e
        else
          var msg := Message(id, v, Provenance(step));
          Emission(Route(e.registry, out, msg, h), e.log + [Row(out, msg)], None)
  }

  /** The loop of `SourceStep.run` over the items `0 .. n - 1`. */
  function SourceEmit(reg: map<string, Consumers>, log: seq<Row>, out: string, step: string,
                      gen: nat -> Result<Json>, h: string -> int, n: nat): (r: Emission)
    requires out in reg
    ensures r.registry.Keys == reg.Keys
  {
    if n == 0 then Emission(reg, log, None)
    else SourceItem(SourceEmit(reg, log, out, step, gen, h, n - 1), out, step, gen, h, n - 1)
  }

  /** `SourceStep.run` between marking the step active and idle again:
      `max_items` (default 1) is read with `int()`, then the loop runs; the
      `output` port is looked up only inside the loop. */
  function SourceRunSpec(reg: map<string, Consumers>, log: seq<Row>, ports: map<string, string>, step: string,
                         params: map<string, Json>, gen: nat -> Result<Json>, h: string -> int): (r: Emission)
    requires PortsIn(ports, reg)
    ensures r.registry.Keys == reg.Keys
    ensures "output" !in ports ==> r.registry == reg && r.log == log
  {
    match PyInt(GetOr(params, "max_items", JInt(1)))
    case Err(e) => Emission(reg, log, Some(e))
    case Ok(count) =>
      if count <= 0 then Emission(reg, log, None)
      else if "output" !in ports then Emission(reg, log, Some(KeyError))
      else SourceEmit(reg, log, ports["output"], step, gen, h, count)
  }

  /** After an exception the remaining items change nothing. */
  lemma {:induction false} SourceErrorStays(reg: map<string, Consumers>, log: seq<Row>, out: string, step: string,
                                            gen: nat -> Result<Json>, h: string -> int, j: nat, n: nat)
    requires out in reg && j <= n
    requires SourceEmit(reg, log, out, step, gen, h, j).error.Some?
    ensures SourceEmit(reg, log, out, step, gen, h, n) == SourceEmit(reg, log, out, step, gen, h, j)
    decreases n - j
  {
    if j < n {
      SourceErrorStays(reg, log, out, step, gen, h, j, n - 1);
    }
  }

  /** A row emitted by the source `step` on `out` for one of the items
      `0 .. n - 1`: its id is the item's id, its payload the item's non-None
      `generate` result, and it is tagged with the step. */
  ghost predicate FromSource(row: Row, out: string, step: string, gen: nat -> Result<Json>, n: nat) {
    && row.stream == out && row.msg.metadata == Provenance(step) && row.msg.payload != JNull
    && exists i :: 0 <= i < n && row.msg.cascadeId == RootId(step, i) && gen(i) == Ok(row.msg.payload)
  }

  /** One item either changes nothing in the store or appends the row of
      its non-None result under its id, which was not stored before. */
  lemma SourceItemRow(e: Emission, out: string, step: string, gen: nat -> Result<Json>, h: string -> int, i: nat)
    requires out in e.registry
    ensures var r := SourceItem(e, out, step, gen, h, i);
      || r.log == e.log
      || (&& e.error.None? && r.error.None? && gen(i).Ok? && gen(i).value != JNull
          && !HasKey(e.log, out, RootId(step, i))
          && r.log == e.log + [Row(out, Message(RootId(step, i), gen(i).value, Provenance(step)))])
  {
  }

  /** The store only grows, and keeps its primary key. */
  lemma {:induction false} SourceEmitGrows(reg: map<string, Consumers>, log: seq<Row>, out: string, step: string,
                                           gen: nat -> Result<Json>, h: string -> int, n: nat)
    requires out in reg
    ensures log <= SourceEmit(reg, log, out, step, gen, h, n).log
    ensures UniqueKeys(log) ==> UniqueKeys(SourceEmit(reg, log, out, step, gen, h, n).log)
  {
    if n > 0 {
      var e := SourceEmit(reg, log, out, step, gen, h, n - 1);
      SourceEmitGrows(reg, log, out, step, gen, h, n - 1);
      SourceItemGrows(e, out, step, gen, h, n - 1, log);
    }
  }

  /** One item keeps what the store held, and its primary key. */
  lemma SourceItemGrows(e: Emission, out: string, step: string, gen: nat -> Result<Json>, h: string -> int, i: nat,
                        log: seq<Row>)
    requires out in e.registry && log <= e.log
    ensures log <= SourceItem(e, out, step, gen, h, i).log
    ensures UniqueKeys(e.log) ==> UniqueKeys(SourceItem(e, out, step, gen, h, i).log)
  {
    var id := RootId(step, i);
    if e.error.None? && !HasKey(e.log, out, id) && gen(i).Ok? && gen(i).value != JNull {
      var row := Row(out, Message(id, gen(i).value, Provenance(step)));
      PrefixAppend(log, e.log, row);
      if UniqueKeys(e.log) {
        AppendUnique(e.log, row);
      }
    }
  }

  /** Every row the loop adds is a row of the source's items. */
  lemma {:induction false} SourceEmitRows(reg: map<string, Consumers>, log: seq<Row>, out: string, step: string,
                                          gen: nat -> Result<Json>, h: string -> int, n: nat)
    requires out in reg
    ensures var r := SourceEmit(reg, log, out, step, gen, h, n);
      |log| <= |r.log| && forall k :: |log| <= k < |r.log| ==> FromSource(r.log[k], out, step, gen, n)
  {
    if n > 0 {
      var e := SourceEmit(reg, log, out, step, gen, h, n - 1);
      var r := SourceEmit(reg, log, out, step, gen, h, n);
      SourceEmitRows(reg, log, out, step, gen, h, n - 1);
      SourceItemRow(e, out, step, gen, h, n - 1);
      forall k | |log| <= k < |r.log| ensures FromSource(r.log[k], out, step, gen, n) {
        if k < |e.log| {
          assert r.log[k] == e.log[k];
          var i :| 0 <= i < n - 1 && e.log[k].msg.cascadeId == RootId(step, i) && gen(i) == Ok(e.log[k].msg.payload);
        } else {
          assert r.log[k].msg.cascadeId == RootId(step, n - 1);
        }
      }
    }
  }

  lemma PrefixAppend(log: seq<Row>, more: seq<Row>, row: Row)
    requires log <= more
    ensures log <= more + [row]
  {
    assert forall k :: 0 <= k < |log| ==> (more + [row])[k] == more[k];
  }

  /** Appending a row whose key is new keeps the primary key. */
  lemma AppendUnique(log: seq<Row>, row: Row)
    requires UniqueKeys(log) && !HasKey(log, row.stream, row.msg.cascadeId)
    ensures UniqueKeys(log + [row])
  {
    var l := log + [row];
    forall i, j | 0 <= i < j < |l| ensures l[i].stream != l[j].stream || l[i].msg.cascadeId != l[j].msg.cascadeId {
      if j == |log| {
        assert l[i] == log[i];
      }
    }
  }

  /** Without an exception, every item is either stored on `out` or was None. */
  lemma {:induction false} SourceCovers(reg: map<string, Consumers>, log: seq<Row>, out: string, step: string,
                                        gen: nat -> Result<Json>, h: string -> int, n: nat)
    requires out in reg
    requires SourceEmit(reg, log, out, step, gen, h, n).error.None?
    ensures forall i :: 0 <= i < n ==>
      HasKey(SourceEmit(reg, log, out, step, gen, h, n).log, out, RootId(step, i)) || gen(i) == Ok(JNull)
  {
    if n > 0 {
      var e := SourceEmit(reg, log, out, step, gen, h, n - 1);
      var r := SourceEmit(reg, log, out, step, gen, h, n);
      assert e.error.None?;
      SourceCovers(reg, log, out, step, gen, h, n - 1);
      SourceItemRow(e, out, step, gen, h, n - 1);
      var more := r.log[|e.log|..];
      assert r.log == e.log + more;
      forall i | 0 <= i < n - 1 && HasKey(e.log, out, RootId(step, i))
        ensures HasKey(r.log, out, RootId(step, i))
      {
        HasKeyGrows(e.log, more, out, RootId(step, i));
      }
      if r.log != e.log {
        assert r.log[|e.log|].msg.cascadeId == RootId(step, n - 1);
      }
    }
  }

  /** When every item id is already stored, the loop calls no `generate`,
      stores and routes nothing. */
  lemma {:induction false} SourceAllStored(reg: map<string, Consumers>, log: seq<Row>, out: string, step: string,
                                           gen: nat -> Result<Json>, h: string -> int, n: nat)
    requires out in reg
    requires forall i :: 0 <= i < n ==> HasKey(log, out, RootId(step, i))
    ensures SourceEmit(reg, log, out, step, gen, h, n) == Emission(reg, log, None)
  {
    if n > 0 {
      SourceAllStored(reg, log, out, step, gen, h, n - 1);
    }
  }

  /** Idempotency: after a run without exceptions in which `generate` never
      returned None, a second run over a store that kept those rows
      generates and emits nothing. */
  lemma SourceRerunEmitsNothing(reg: map<string, Consumers>, log: seq<Row>, out: string, step: string,
                                gen: nat -> Result<Json>, h: string -> int, n: nat,
                                reg2: map<string, Consumers>, log2: seq<Row>, gen2: nat -> Result<Json>, h2: string -> int)
    requires out in reg && out in reg2
    requires SourceEmit(reg, log, out, step, gen, h, n).error.None?
    requires forall i :: 0 <= i < n ==> gen(i) != Ok(JNull)
    requires SourceEmit(reg, log, out, step, gen, h, n).log <= log2
    ensures SourceEmit(reg2, log2, out, step, gen2, h2, n) == Emission(reg2, log2, None)
  {
    var r := SourceEmit(reg, log, out, step, gen, h, n);
    SourceCovers(reg, log, out, step, gen, h, n);
    forall i | 0 <= i < n ensures HasKey(log2, out, RootId(step, i)) {
      assert log2 == r.log + log2[|r.log|..];
      HasKeyGrows(r.log, log2[|r.log|..], out, RootId(step, i));
    }
    SourceAllStored(reg2, log2, out, step, gen2, h2, n);
  }

  // ---------------------------------------------------------------- sink

  /** How one round of `SinkStep.run` ends; `Sunk` carries the message's id
      and the entries of its unrolled history, which `StepJSONSink.sink`
      writes. The order in which the file lists them is not kept. */
  datatype SinkOutcome = SinkBlocked | SinkFailed(error: PyError) | Sunk(id: string, history: map<string, Json>)

  datatype SinkEffect = SinkEffect(outcome: SinkOutcome, active: bool, registry: map<string, Consumers>)

  /** One round of the loop of `SinkStep.run` for a `StepJSONSink`. */
  function SinkIteration(reg: map<string, Consumers>, log: seq<Row>, ports: map<string, string>, step: string): (r: SinkEffect)
    requires PortsIn(ports, reg)
    ensures r.active <==> InputHead(reg, ports, step).Some?
    ensures !r.active ==> r.registry == reg
  {
    if "input" !in ports then SinkEffect(SinkFailed(KeyError), false, reg)
    else
      var queues := reg[ports["input"]].queues;
      if step !in queues then SinkEffect(SinkFailed(ValueError), false, reg)
      else if queues[step] == [] then SinkEffect(SinkBlocked, false, reg)
      else
        SinkMessage(Pop(reg, ports["input"], step), log, queues[step][0])
  }

  /** The rest of a sink round once `msg` has been taken off the input
      queue, leaving the registry `reg`: the record is the message's id
      with its unrolled history, or the exception `unroll` raised. */
  function SinkMessage(reg: map<string, Consumers>, log: seq<Row>, msg: Message): (r: SinkEffect)
    ensures r.active && r.registry == reg
  {
    match UnrollOf(msg.cascadeId, log)
    case Err(e) => SinkEffect(SinkFailed(e), true, reg)
    case Ok(history) => SinkEffect(Sunk(msg.cascadeId, history), true, reg)
  }

  /** A transform's output reaching a sink: the record written for it holds
      the stored payload of that output under the transform's step name. */
  lemma SinkRecordsTransform(reg: map<string, Consumers>, log: seq<Row>, ports: map<string, string>, sink: string,
                             parent: string, step: string)
    requires PortsIn(ports, reg) && InputHead(reg, ports, sink).Some?
    requires InputHead(reg, ports, sink).value.cascadeId == DeriveId(parent, step, [])
    requires Lookup(log, DeriveId(parent, step, [])).Some?
    requires step != "" && ':' !in step && '/' !in step && '[' !in step && '[' !in parent
    ensures var e := SinkIteration(reg, log, ports, sink);
      && e.outcome.Sunk? && e.active && e.outcome.id == DeriveId(parent, step, [])
      && step in e.outcome.history && e.outcome.history[step] == Lookup(log, DeriveId(parent, step, [])).value
  {
    assert ParamSuffix([]) == "";
    UnrollRecordsOwnStep(parent, step, [], log);
  }

  // ---------------------------------------------------------------- stream calls seen on the registry

  /** When `before` still gives the consumer state of every stream but `s`,
      the registry changed at `s` only. */
  lemma OnlyOneChanged(m: CascadeManager, s: Stream, before: map<string, Consumers>)
    requires s.name in m.streams && m.streams[s.name] == s && before.Keys == m.streams.Keys
    requires forall n :: n in m.streams && n != s.name ==> before[n] == m.streams[n].State()
    ensures RegistryOf(m.streams) == before[s.name := s.State()]
  {
  }

  /** `stream.get(consumer)` on a registered stream. */
  method TakeFrom(m: CascadeManager, s: Stream, consumer: string) returns (r: GetResult)
    requires m.Valid() && s.name in m.streams && m.streams[s.name] == s
    modifies s
    ensures m.Valid() && m.storage.log == old(m.storage.log)
    ensures m.streams == old(m.streams) && m.steps == old(m.steps) && m.idleSteps == old(m.idleSteps) && m.completed == old(m.completed)
    ensures var reg := old(RegistryOf(m.streams));
      var queues := reg[s.name].queues;
      && (consumer !in queues ==> r == NotRegistered && RegistryOf(m.streams) == reg)
      && (consumer in queues && queues[consumer] == [] ==> r == WouldBlock && RegistryOf(m.streams) == reg)
      && (consumer in queues && queues[consumer] != [] ==>
            r == Got(queues[consumer][0]) && RegistryOf(m.streams) == Pop(reg, s.name, consumer))
  {
    ghost var before := RegistryOf(m.streams);
    r := s.Get(consumer);
    OnlyOneChanged(m, s, before);
  }

  /** `stream.put(msg)` of a message whose key is not stored yet. */
  method EmitOn(m: CascadeManager, s: Stream, msg: Message, h: string -> int)
    requires m.Valid() && s.name in m.streams && m.streams[s.name] == s
    requires !HasKey(m.storage.log, s.name, msg.cascadeId)
    modifies s, m.storage
    ensures m.Valid()
    ensures m.streams == old(m.streams) && m.steps == old(m.steps) && m.idleSteps == old(m.idleSteps) && m.completed == old(m.completed)
    ensures RegistryOf(m.streams) == Route(old(RegistryOf(m.streams)), s.name, msg, h)
    ensures m.storage.log == old(m.storage.log) + [Row(s.name, msg)]
  {
    ghost var before := RegistryOf(m.streams);
    var _ := s.Put(msg, false, h);
    OnlyOneChanged(m, s, before);
  }

  /** `stream.register_consumer(id, weight)` on a registered stream. */
  method EnrolIn(m: CascadeManager, s: Stream, id: string, weight: int)
    requires m.Valid() && s.name in m.streams && m.streams[s.name] == s
    modifies s
    ensures m.Valid() && m.storage.log == old(m.storage.log)
    ensures m.streams == old(m.streams) && m.steps == old(m.steps) && m.idleSteps == old(m.idleSteps) && m.completed == old(m.completed)
    ensures RegistryOf(m.streams) == old(RegistryOf(m.streams))[s.name := Enrol(old(RegistryOf(m.streams))[s.name], id, weight)]
  {
    ghost var before := RegistryOf(m.streams);
    s.RegisterConsumer(id, weight);
    OnlyOneChanged(m, s, before);
  }

  /** `get_stream(name)` seen on the registry: a new stream joins it with
      no consumers. */
  method StreamFor(m: CascadeManager, name: string) returns (s: Stream)
    requires m.Valid()
    modifies m
    ensures m.Valid()
    ensures m.steps == old(m.steps) && m.idleSteps == old(m.idleSteps) && m.completed == old(m.completed)
    ensures m.storage.log == old(m.storage.log)
    ensures name in m.streams && s == m.streams[name]
    ensures || m.streams == old(m.streams)
            || (name !in old(m.streams) && fresh(s) && m.streams == old(m.streams)[name := s])
    ensures RegistryOf(m.streams) ==
      if name in old(m.streams) then old(RegistryOf(m.streams)) else old(RegistryOf(m.streams))[name := Consumers([], map[], map[])]
  {
    ghost var before := RegistryOf(m.streams);
    s := m.GetStream(name);
    if name !in old(m.streams) {
      ghost var after := before[name := Consumers([], map[], map[])];
      assert RegistryOf(m.streams).Keys == after.Keys;
      forall n | n in after ensures RegistryOf(m.streams)[n] == after[n] {
        if n != name {
          assert m.streams[n] == old(m.streams)[n];
        }
      }
    }
  }

  /** The stream calls of one entry of the loop of `setup`: `get_stream`
      of the named stream, then, for a `stream:weight` entry, `int(weight)`
      and `register_consumer`. `ok` is false when `int(weight)` raised. */
  method FetchFor(m: CascadeManager, step: string, config: (string, string)) returns (stream: Stream, ok: bool)
    requires m.Valid()
    modifies m, m.streams.Values
    ensures m.Valid()
    ensures m.storage.log == old(m.storage.log)
    ensures m.steps == old(m.steps) && m.idleSteps == old(m.idleSteps) && m.completed == old(m.completed)
    ensures StreamOf(config) in m.streams && stream == m.streams[StreamOf(config)]
    ensures || m.streams == old(m.streams)
            || (StreamOf(config) !in old(m.streams) && fresh(stream) && m.streams == old(m.streams)[StreamOf(config) := stream])
    ensures ok == WeightParses(config)
    ensures RegistryOf(m.streams) ==
      if ok then Bind(old(RegistryOf(m.streams)), step, config) else Fetch(old(RegistryOf(m.streams)), StreamOf(config))
  {
    var spec := ParseSpec(config.1);
    stream := StreamFor(m, spec.stream);
    ok := true;
    if spec.Consumer? {
      var weight := PyInt(JStr(spec.weight));
      ok := weight.Ok?;
      if ok {
        EnrolIn(m, stream, step, weight.value);
      }
    }
  }

  lemma WireSnoc(w: WireState, step: string, configs: seq<(string, string)>, i: nat)
    requires i < |configs|
    ensures Wire(w, step, configs[..i + 1]) == WireOne(Wire(w, step, configs[..i]), step, configs[i])
  {
    assert configs[..i + 1][..i] == configs[..i];
  }

  /** One entry of the wiring, given what its stream calls did. */
  lemma WireOneFrom(w: WireState, step: string, config: (string, string), reg: map<string, Consumers>,
                    names: map<string, string>, ok: bool)
    requires !w.failed && ok == WeightParses(config)
    requires reg == if ok then Bind(w.registry, step, config) else Fetch(w.registry, StreamOf(config))
    requires names == if ok then w.ports[config.0 := StreamOf(config)] else w.ports
    ensures WireOne(w, step, config) == WireState(reg, names, !ok)
  {
  }

  // ---------------------------------------------------------------- the step object

  /** The name of each port's stream. */
  function NamesOf(ports: map<string, Stream>): (r: map<string, string>)
    ensures r.Keys == ports.Keys
  {
    map p | p in ports :: ports[p].name
  }

  lemma NamesOfUpdate(ports: map<string, Stream>, p: string, s: Stream)
    ensures NamesOf(ports[p := s]) == NamesOf(ports)[p := s.name]
  {
    assert NamesOf(ports[p := s]).Keys == NamesOf(ports)[p := s.name].Keys;
  }

  /** One entry of the loop of `setup`: fetch (and enrol in) its stream,
      then bind its port when the weight parsed. */
  method WireEntry(m: CascadeManager, step: string, config: (string, string), bound: map<string, Stream>, ghost w: WireState)
    returns (bound': map<string, Stream>, ok: bool)
    requires m.Valid() && WiredIn(bound, m.streams)
    requires w == WireState(RegistryOf(m.streams), NamesOf(bound), false)
    modifies m, m.streams.Values
    ensures m.Valid() && WiredIn(bound', m.streams)
    ensures m.storage.log == old(m.storage.log) && m.steps == old(m.steps)
    ensures m.idleSteps == old(m.idleSteps) && m.completed == old(m.completed)
    ensures WireOne(w, step, config) == WireState(RegistryOf(m.streams), NamesOf(bound'), !ok)
    ensures StreamOf(config) in m.streams
    ensures || m.streams == old(m.streams)
            || (&& StreamOf(config) !in old(m.streams) && fresh(m.streams[StreamOf(config)])
                && m.streams == old(m.streams)[StreamOf(config) := m.streams[StreamOf(config)]])
  {
    ghost var streams0 := m.streams;
    var stream: Stream;
    stream, ok := FetchFor(m, step, config);
    WiredInBind(bound, streams0, m.streams, StreamOf(config), config.0, stream, ok);
    bound' := bound;
    if ok {
      NamesOfUpdate(bound, config.0, stream);
      bound' := bound[config.0 := stream];
    }
    WireOneFrom(w, step, config, RegistryOf(m.streams), NamesOf(bound'), ok);
  }

  /** The loop of `setup` with the port bindings held in `bound`, which
      starts as the bindings the step already has. */
  method WireLoop(m: CascadeManager, step: string, configs: seq<(string, string)>, ports: map<string, Stream>)
    returns (bound: map<string, Stream>, ok: bool)
    requires m.Valid() && WiredIn(ports, m.streams)
    modifies m, m.streams.Values
    ensures m.Valid() && WiredIn(bound, m.streams)
    ensures m.storage.log == old(m.storage.log) && m.steps == old(m.steps)
    ensures m.idleSteps == old(m.idleSteps) && m.completed == old(m.completed)
    ensures Wire(WireState(old(RegistryOf(m.streams)), NamesOf(ports), false), step, configs)
         == WireState(RegistryOf(m.streams), NamesOf(bound), !ok)
  {
    ghost var w0 := WireState(RegistryOf(m.streams), NamesOf(ports), false);
    bound := ports;
    var i := 0;
    ok := true;
    while i < |configs| && ok
      invariant 0 <= i <= |configs|
      invariant m.Valid() && WiredIn(bound, m.streams)
      invariant m.storage.log == old(m.storage.log) && m.steps == old(m.steps)
      invariant m.idleSteps == old(m.idleSteps) && m.completed == old(m.completed)
      invariant Wire(w0, step, configs[..i]) == WireState(RegistryOf(m.streams), NamesOf(bound), !ok)
      invariant forall n :: n in m.streams ==> (n in old(m.streams) && m.streams[n] == old(m.streams)[n]) || fresh(m.streams[n])
    {
      bound, ok := WireEntry(m, step, configs[i], bound, Wire(w0, step, configs[..i]));
      WireSnoc(w0, step, configs, i);
      i := i + 1;
    }
    if !ok {
      WireFailureStays(w0, step, configs, i);
    } else {
      PrefixWhole(configs, i);
    }
  }

  /** The loop of `SourceStep.run` over the items `0 .. count - 1` on the
      stream `out`; it stops at the first exception. */
  method Emit(m: CascadeManager, out: Stream, step: string, gen: nat -> Result<Json>, h: string -> int, count: nat)
    returns (err: Option<PyError>)
    requires m.Valid() && out.name in m.streams && m.streams[out.name] == out
    modifies m.storage, m.streams.Values
    ensures m.Valid()
    ensures var e := SourceEmit(old(RegistryOf(m.streams)), old(m.storage.log), out.name, step, gen, h, count);
      && err == e.error && RegistryOf(m.streams) == e.registry && m.storage.log == e.log
  {
    ghost var reg0, log0 := RegistryOf(m.streams), m.storage.log;
    var i := 0;
    err := None;
    while i < count && err == None
      invariant 0 <= i <= count
      invariant m.Valid()
      invariant SourceEmit(reg0, log0, out.name, step, gen, h, i) == Emission(RegistryOf(m.streams), m.storage.log, err)
    {
      err := EmitItem(m, out, step, gen, h, i, SourceEmit(reg0, log0, out.name, step, gen, h, i));
      i := i + 1;
    }
    if err.Some? {
      SourceErrorStays(reg0, log0, out.name, step, gen, h, i, count);
    }
  }

  /** Item `i` of the loop of `SourceStep.run`: unless its id is stored on
      `out`, `generate` runs and a non-None result is put on `out`. */
  method EmitItem(m: CascadeManager, out: Stream, step: string, gen: nat -> Result<Json>, h: string -> int, i: nat,
                  ghost e: Emission)
    returns (err: Option<PyError>)
    requires m.Valid() && out.name in m.streams && m.streams[out.name] == out
    requires e == Emission(RegistryOf(m.streams), m.storage.log, None)
    modifies m.storage, m.streams.Values
    ensures m.Valid()
    ensures SourceItem(e, out.name, step, gen, h, i) == Emission(RegistryOf(m.streams), m.storage.log, err)
  {
    var id := RootId(step, i);
    err := None;
    if !out.CheckExists(id) {
      match gen(i)
      case Err(x) => err := Some(x);
      case Ok(v) =>
        if v != JNull {
          EmitOn(m, out, Message(id, v, Provenance(step)), h);
        }
    }
  }

  /** Every port is bound to the stream registered under its name. */
  ghost predicate WiredIn(ports: map<string, Stream>, streams: map<string, Stream>) {
    forall p :: p in ports ==> ports[p].name in streams && streams[ports[p].name] == ports[p]
  }

  /** One entry of the loop of `setup` keeps every binding valid: the
      fetched stream is registered under its name, and a stream registered
      under a new name leaves the others in place. */
  lemma WiredInBind(ports: map<string, Stream>, streams0: map<string, Stream>, streams1: map<string, Stream>,
                    n: string, port: string, stream: Stream, ok: bool)
    requires WiredIn(ports, streams0)
    requires n in streams1 && stream == streams1[n] && stream.name == n
    requires streams1 == streams0 || (n !in streams0 && streams1 == streams0[n := stream])
    ensures WiredIn(if ok then ports[port := stream] else ports, streams1)
  {
  }

  /** `Step` of cascade_steps.py, with the run loops of its subclasses. */
  class Step {
    const name: string
    const kind: StepKind
    /** `stream_configs`: the `port: spec` entries in dict order. */
    const configs: seq<(string, string)>
    const params: map<string, Json>
    var manager: CascadeManager?
    /** `self.streams`: the stream bound to each port. */
    var ports: map<string, Stream>

    constructor (name: string, kind: StepKind, configs: seq<(string, string)>, params: map<string, Json>)
      ensures this.name == name && this.kind == kind && this.configs == configs && this.params == params
      ensures manager == null && ports == map[]
    {
      this.name := name;
      this.kind := kind;
      this.configs := configs;
      this.params := params;
      manager := null;
      ports := map[];
    }

    /** The name of the stream bound to each port. */
    ghost function PortNames(): map<string, string>
      reads this
    {
      NamesOf(ports)
    }

    /** Every port is bound to the stream registered in `m` under its name. */
    ghost predicate WiredTo(m: CascadeManager)
      reads this, m
    {
      WiredIn(ports, m.streams)
    }

    /** Set up: the manager is consistent and the ports are bound to its streams. */
    ghost predicate Ready()
      reads this, manager
      reads if manager != null then {manager.storage} else {}
      reads if manager != null then manager.streams.Values else {}
    {
      manager != null && manager.Valid() && WiredTo(manager)
    }

    /** `setup(manager)`: the step is registered, every entry is wired in
        order (a weight `int()` rejects raises `ValueError` and ends the
        loop), then `_setup()` runs. */
    method Setup(m: CascadeManager) returns (err: Option<PyError>)
      requires m.Valid() && WiredTo(m)
      modifies this, m, m.streams.Values
      ensures manager == m && Ready()
      ensures m.storage.log == old(m.storage.log)
      ensures m.steps == old(m.steps) + {name} && m.idleSteps == old(m.idleSteps) && m.completed == old(m.completed)
      ensures var w := Wire(WireState(old(RegistryOf(m.streams)), old(PortNames()), false), name, configs);
        && RegistryOf(m.streams) == w.registry && PortNames() == w.ports
        && err == if w.failed then Some(ValueError) else SetupHook(kind, params)
    {
      m.RegisterStep(name);
      var bound, ok := WireLoop(m, name, configs, ports);
      ghost var wired := WireState(RegistryOf(m.streams), NamesOf(bound), !ok);
      manager, ports := m, bound;
      assert RegistryOf(m.streams) == wired.registry;
      err := if ok then SetupHook(kind, params) else Some(ValueError);
    }


    // ---------------------------------------------------------- run loops

    /** One round of the loop of `TransformStep.run`: the step is marked
        idle (which may set the completion event), the head of its input
        queue is taken, the step is marked active, then the message is
        handled; every exception ends the round only. */
    method TransformOnce(process: Json -> Result<Json>, h: string -> int) returns (outcome: Outcome)
      requires Ready()
      modifies manager, manager.storage, manager.streams.Values
      ensures Ready()
      ensures manager.streams == old(manager.streams) && manager.steps == old(manager.steps) + {name}
      ensures manager.completed == (|| old(manager.completed)
                                    || (old(manager.idleSteps) + {name} == old(manager.steps) + {name}
                                        && old(AllStreamsEmpty(manager.streams))))
      ensures PortsIn(PortNames(), old(RegistryOf(manager.streams)))
      ensures var e := TransformIteration(old(RegistryOf(manager.streams)), old(manager.storage.log), PortNames(), name, process, h);
        && outcome == e.outcome && RegistryOf(manager.streams) == e.registry && manager.storage.log == e.log
        && manager.idleSteps == if e.active then old(manager.idleSteps) - {name} else old(manager.idleSteps) + {name}
    {
      var m := manager;
      ghost var reg0, log0, idle0 := RegistryOf(m.streams), m.storage.log, m.idleSteps;
      m.MarkStepIdle(name);
      assert RegistryOf(m.streams) == reg0 && m.storage.log == log0 && m.idleSteps == idle0 + {name};
      outcome := Receive(m, process, h);
    }

    /** `get` on the input port, then, once a message arrived, `mark_step_active`
        and the handling of the message. */
    method Receive(m: CascadeManager, process: Json -> Result<Json>, h: string -> int) returns (outcome: Outcome)
      requires manager == m && m.Valid() && WiredTo(m) && name in m.steps
      modifies m, m.storage, m.streams.Values
      ensures m.Valid() && m.streams == old(m.streams)
      ensures m.steps == old(m.steps) && m.completed == old(m.completed)
      ensures PortsIn(PortNames(), old(RegistryOf(m.streams)))
      ensures var e := TransformIteration(old(RegistryOf(m.streams)), old(m.storage.log), PortNames(), name, process, h);
        && outcome == e.outcome && RegistryOf(m.streams) == e.registry && m.storage.log == e.log
        && m.idleSteps == if e.active then old(m.idleSteps) - {name} else old(m.idleSteps)
    {
      ghost var reg0, log0 := RegistryOf(m.streams), m.storage.log;
      ghost var e := TransformIteration(reg0, log0, PortNames(), name, process, h);
      if "input" !in ports {
        outcome := Failed(KeyError);
      } else {
        var r := TakeFrom(m, ports["input"], name);
        match r
        case NotRegistered =>
          assert e == Effect(Failed(ValueError), false, reg0, log0);
          outcome := Failed(ValueError);
        case WouldBlock =>
          assert e == Effect(Blocked, false, reg0, log0);
          outcome := Blocked;
        case Got(msg) =>
          assert e == TransformMessage(RegistryOf(m.streams), log0, PortNames(), name, msg, process, h);
          outcome := Accept(m, msg, process, h);
      }
    }

    /** A message arrived: `mark_step_active`, then its handling. */
    method Accept(m: CascadeManager, msg: Message, process: Json -> Result<Json>, h: string -> int) returns (outcome: Outcome)
      requires manager == m && m.Valid() && WiredTo(m) && name in m.steps
      modifies m, m.storage, m.streams.Values
      ensures m.Valid() && m.streams == old(m.streams)
      ensures m.steps == old(m.steps) && m.completed == old(m.completed) && m.idleSteps == old(m.idleSteps) - {name}
      ensures PortsIn(PortNames(), old(RegistryOf(m.streams)))
      ensures var e := TransformMessage(old(RegistryOf(m.streams)), old(m.storage.log), PortNames(), name, msg, process, h);
        && outcome == e.outcome && RegistryOf(m.streams) == e.registry && m.storage.log == e.log
    {
      m.MarkStepActive(name);
      outcome := Handle(m, msg, process, h);
    }

    /** The handling of a received message by `TransformStep.run`. */
    method Handle(m: CascadeManager, msg: Message, process: Json -> Result<Json>, h: string -> int) returns (outcome: Outcome)
      requires manager == m && m.Valid() && WiredTo(m)
      modifies m.storage, m.streams.Values
      ensures m.Valid()
      ensures PortsIn(PortNames(), old(RegistryOf(m.streams)))
      ensures var e := TransformMessage(old(RegistryOf(m.streams)), old(m.storage.log), PortNames(), name, msg, process, h);
        && outcome == e.outcome && RegistryOf(m.streams) == e.registry && m.storage.log == e.log
    {
      var id := DeriveId(msg.cascadeId, name, []);
      if "output" !in ports {
        outcome := Failed(KeyError);
      } else {
        var out := ports["output"];
        if out.CheckExists(id) {
          outcome := Skipped(id);
        } else {
          match process(msg.payload)
          case Err(e) => outcome := Failed(e);
          case Ok(v) =>
            if v == JNull {
              outcome := Dropped(id);
            } else {
              var published := Message(id, v, Provenance(name));
              EmitOn(m, out, published, h);
              outcome := Published(published);
            }
        }
      }
    }

    /** `SourceStep.run`: the step is marked active, `max_items` is read
        and the items are emitted; the step is marked idle at the end,
        after an exception too. */
    method SourceRun(gen: nat -> Result<Json>, h: string -> int) returns (err: Option<PyError>)
      requires Ready()
      modifies manager, manager.storage, manager.streams.Values
      ensures Ready()
      ensures manager.streams == old(manager.streams)
      ensures manager.steps == old(manager.steps) + {name} && manager.idleSteps == old(manager.idleSteps) + {name}
      ensures manager.completed == (old(manager.completed) || (manager.idleSteps == manager.steps && AllStreamsEmpty(manager.streams)))
      ensures PortsIn(PortNames(), old(RegistryOf(manager.streams)))
      ensures var e := SourceRunSpec(old(RegistryOf(manager.streams)), old(manager.storage.log), PortNames(), name, params, gen, h);
        && err == e.error && RegistryOf(manager.streams) == e.registry && manager.storage.log == e.log
    {
      var m := manager;
      m.MarkStepActive(name);
      err := Produce(m, gen, h);
      m.MarkStepIdle(name);
    }

    /** The body of `SourceStep.run` between the two marks. */
    method Produce(m: CascadeManager, gen: nat -> Result<Json>, h: string -> int) returns (err: Option<PyError>)
      requires manager == m && m.Valid() && WiredTo(m)
      modifies m.storage, m.streams.Values
      ensures m.Valid()
      ensures PortsIn(PortNames(), old(RegistryOf(m.streams)))
      ensures var e := SourceRunSpec(old(RegistryOf(m.streams)), old(m.storage.log), PortNames(), name, params, gen, h);
        && err == e.error && RegistryOf(m.streams) == e.registry && m.storage.log == e.log
    {
      var count := PyInt(GetOr(params, "max_items", JInt(1)));
      if count.Err? {
        err := Some(count.error);
      } else if count.value <= 0 {
        err := None;
      } else if "output" !in ports {
        err := Some(KeyError);
      } else {
        err := Emit(m, ports["output"], name, gen, h, count.value);
      }
    }

    /** One round of the loop of `SinkStep.run` for a `StepJSONSink`: as a
        transform round, with `unroll` of the message as its handling. */
    method SinkOnce() returns (outcome: SinkOutcome)
      requires Ready()
      modifies manager, manager.streams.Values
      ensures Ready()
      ensures manager.streams == old(manager.streams) && manager.steps == old(manager.steps) + {name}
      ensures manager.storage.log == old(manager.storage.log)
      ensures manager.completed == (|| old(manager.completed)
                                    || (old(manager.idleSteps) + {name} == old(manager.steps) + {name}
                                        && old(AllStreamsEmpty(manager.streams))))
      ensures PortsIn(PortNames(), old(RegistryOf(manager.streams)))
      ensures var e := SinkIteration(old(RegistryOf(manager.streams)), old(manager.storage.log), PortNames(), name);
        && outcome == e.outcome && RegistryOf(manager.streams) == e.registry
        && manager.idleSteps == if e.active then old(manager.idleSteps) - {name} else old(manager.idleSteps) + {name}
    {
      var m := manager;
      ghost var reg0, log0, idle0 := RegistryOf(m.streams), m.storage.log, m.idleSteps;
      m.MarkStepIdle(name);
      assert RegistryOf(m.streams) == reg0 && m.storage.log == log0 && m.idleSteps == idle0 + {name};
      outcome := SinkReceive(m);
    }

    /** `get` on the input port, then `mark_step_active` and `unroll`. */
    method SinkReceive(m: CascadeManager) returns (outcome: SinkOutcome)
      requires manager == m && m.Valid() && WiredTo(m) && name in m.steps
      modifies m, m.streams.Values
      ensures m.Valid() && m.streams == old(m.streams) && m.storage.log == old(m.storage.log)
      ensures m.steps == old(m.steps) && m.completed == old(m.completed)
      ensures PortsIn(PortNames(), old(RegistryOf(m.streams)))
      ensures var e := SinkIteration(old(RegistryOf(m.streams)), old(m.storage.log), PortNames(), name);
        && outcome == e.outcome && RegistryOf(m.streams) == e.registry
        && m.idleSteps == if e.active then old(m.idleSteps) - {name} else old(m.idleSteps)
    {
      ghost var reg0 := RegistryOf(m.streams);
      ghost var e := SinkIteration(reg0, m.storage.log, PortNames(), name);
      if "input" !in ports {
        outcome := SinkFailed(KeyError);
      } else {
        var r := TakeFrom(m, ports["input"], name);
        match r
        case NotRegistered =>
          assert e == SinkEffect(SinkFailed(ValueError), false, reg0);
          outcome := SinkFailed(ValueError);
        case WouldBlock =>
          assert e == SinkEffect(SinkBlocked, false, reg0);
          outcome := SinkBlocked;
        case Got(msg) =>
          assert e == SinkMessage(RegistryOf(m.streams), m.storage.log, msg);
          outcome := SinkAccept(m, msg);
      }
    }

    /** A message arrived: `mark_step_active`, then `unroll`. */
    method SinkAccept(m: CascadeManager, msg: Message) returns (outcome: SinkOutcome)
      requires manager == m && m.Valid() && name in m.steps
      modifies m
      ensures m.Valid() && m.streams == old(m.streams) && m.storage.log == old(m.storage.log)
      ensures m.steps == old(m.steps) && m.completed == old(m.completed) && m.idleSteps == old(m.idleSteps) - {name}
      ensures RegistryOf(m.streams) == old(RegistryOf(m.streams))
      ensures var e := SinkMessage(RegistryOf(m.streams), m.storage.log, msg); outcome == e.outcome
    {
      m.MarkStepActive(name);
      var history := m.Unroll(msg);
      outcome := if history.Ok? then Sunk(msg.cascadeId, history.value) else SinkFailed(history.error);
    }
  }
}
