/** `CascadeManager` of cascade_base.py: the registry of streams, the
    idle/active bookkeeping of steps, completion detection, the replay of
    stored messages on start-up, and `unroll`. */
module Manager {
  import opened Base
  import opened Values
  import opened Text
  import opened Store
  import opened Streams
  import opened Unroll

  /** `Paths` of what is left, behind the paths already collected. */
  function Then(done: seq<string>, rest: Result<seq<string>>): Result<seq<string>> {
    match rest
    case Err(e) => Err(e)
    case Ok(ps) => Ok(done + ps)
  }

  lemma NextName(names: seq<string>, i: nat)
    requires i < |names|
    requires forall a, b :: 0 <= a < b < |names| ==> names[a] != names[b]
    ensures names[i] !in names[..i]
    ensures names[..i + 1] == names[..i] + [names[i]]
    ensures forall n :: n in names[..i + 1] <==> n in names[..i] || n == names[i]
  {
    assert names[..i + 1] == names[..i] + [names[i]];
  }

  lemma ThenAppend(done: seq<string>, more: seq<string>, rest: Result<seq<string>>)
    ensures Then(done, Then(more, rest)) == Then(done + more, rest)
  {
    if rest.Ok? {
      assert done + (more + rest.value) == done + more + rest.value;
    }
  }

  /** Idle steps are a subset of the steps, so equal counts mean every step
      is idle; `_check_completion` compares only the counts. */
  lemma AllIdleIff(idle: set<string>, steps: set<string>)
    requires idle <= steps
    ensures |idle| == |steps| <==> idle == steps
  {
    if |idle| == |steps| {
      assert |steps - idle| == |steps| - |idle|;
      assert steps - idle == {};
    }
  }

  lemma DeliverAllSnoc(q: map<string, seq<Message>>, order: seq<string>, weights: map<string, int>,
                       msgs: seq<Message>, m: Message, h: string -> int)
    ensures DeliverAll(q, order, weights, msgs + [m], h) == Deliver(DeliverAll(q, order, weights, msgs, h), order, weights, m, h)
  {
    assert (msgs + [m])[..|msgs|] == msgs;
  }

  lemma {:induction false} DeliverAllNoConsumers(msgs: seq<Message>, h: string -> int)
    ensures DeliverAll(map[], [], map[], msgs, h) == map[]
  {
    if msgs != [] {
      DeliverAllNoConsumers(msgs[..|msgs| - 1], h);
      DeliverNoConsumers(map[], map[], msgs[|msgs| - 1], h);
    }
  }

  /** `put(msg, _no_store=True)` of each of `msgs` in turn, as `restore_state`
      does for one stream. */
  method Replay(stream: Stream, msgs: seq<Message>, h: string -> int)
    requires stream.Valid() && stream.storage.Valid()
    modifies stream, stream.storage
    ensures stream.Valid() && stream.storage.Valid()
    ensures stream.storage.log == old(stream.storage.log)
    ensures stream.order == old(stream.order) && stream.weights == old(stream.weights)
    ensures stream.queues == DeliverAll(old(stream.queues), stream.order, stream.weights, msgs, h)
  {
    var j := 0;
    while j < |msgs|
      invariant 0 <= j <= |msgs|
      invariant stream.Valid() && stream.storage.Valid()
      invariant stream.storage.log == old(stream.storage.log)
      invariant stream.order == old(stream.order) && stream.weights == old(stream.weights)
      invariant stream.queues == DeliverAll(old(stream.queues), stream.order, stream.weights, msgs[..j], h)
    {
      DeliverAllSnoc(old(stream.queues), stream.order, stream.weights, msgs[..j], msgs[j], h);
      PrefixSnoc(msgs, j);
      var _ := stream.Put(msgs[j], true, h);
      j := j + 1;
    }
    assert msgs[..j] == msgs;
  }

  /** The first half of `unroll`: the `while '[' in current_id` loop and the
      final main path. */
  method CollectPaths(id: string) returns (r: Result<seq<string>>)
    ensures r == Paths(id)
  {
    var current := id;
    var paths: seq<string> := [];
    assert Then(paths, Paths(current)) == Paths(current) by {
      if Paths(current).Ok? { assert [] + Paths(current).value == Paths(current).value; }
    }
    while '[' in current
      invariant Then(paths, Paths(current)) == Paths(id)
      decreases |current|
    {
      var ms := LastIndexOf(current, '[').value;
      var found := IndexFrom(current, ']', ms);
      if found.None? {
        assert Paths(current) == Err(ValueError);
        return Err(ValueError);
      }
      var me := found.value;
      var merged := Split(current[ms + 1..me], '|');
      ThenAppend(paths, merged, Paths(current[..ms]));
      paths := paths + merged;
      current := current[..ms];
    }
    if current != "" {
      paths := paths + [current];
    } else {
      assert paths + [] == paths;
    }
    r := Ok(paths);
  }

  /** The second half of `unroll`: for each path, each `/`-prefix is looked
      up and a hit recorded under the step name of its last segment. */
  method LookupPaths(paths: seq<string>, log: seq<Row>) returns (result: map<string, Json>)
    ensures result == Walk(map[], paths, log)
  {
    result := map[];
    var i := 0;
    while i < |paths|
      invariant 0 <= i <= |paths|
      invariant Walk(result, paths[i..], log) == Walk(map[], paths, log)
    {
      var segs := Split(paths[i], '/');
      var currentPath: seq<string> := [];
      var j := 0;
      ghost var start := result;
      while j < |segs|
        invariant 0 <= j <= |segs|
        invariant currentPath == segs[..j]
        invariant WalkPath(result, segs, j, log) == WalkPath(start, segs, 0, log)
      {
        PrefixSnoc(segs, j);
        currentPath := currentPath + [segs[j]];
        var fullId := Join(currentPath, '/');
        assert fullId == PrefixId(segs, j);
        var found := GetMessage(log, fullId);
        if found.Some? {
          result := result[StepName(segs[j]) := found.value.payload];
        }
        j := j + 1;
      }
      assert paths[i..] == [paths[i]] + paths[i + 1..];
      i := i + 1;
    }
    assert paths[i..] == [];
  }

  /** Every stream's consumer state, by stream name. */
  ghost function RegistryOf(streams: map<string, Stream>): map<string, Consumers>
    reads streams.Values
  {
    map n | n in streams :: streams[n].State()
  }

  /** Every stream's consumer queues are empty. */
  ghost predicate AllStreamsEmpty(streams: map<string, Stream>)
    reads streams.Values
  {
    forall n :: n in streams ==> streams[n].AllEmpty()
  }

  class CascadeManager {
    const storage: Storage
    var streams: map<string, Stream>
    var steps: set<string>
    var idleSteps: set<string>
    /** `_completion_event` has been set. */
    var completed: bool

    ghost predicate Valid()
      reads this, storage, streams.Values
    {
      && storage.Valid()
      && (forall n :: n in streams ==>
            streams[n].name == n && streams[n].storage == storage && streams[n].Valid())
      && idleSteps <= steps
    }

    constructor (storage: Storage)
      requires storage.Valid()
      ensures Valid()
      ensures this.storage == storage && streams == map[]
      ensures steps == {} && idleSteps == {} && !completed
    {
      this.storage := storage;
      streams := map[];
      steps := {};
      idleSteps := {};
      completed := false;
    }

    /** `get_stream(name)`: the registered stream, or a new one without
        consumers that is registered under `name` from then on. */
    method GetStream(name: string) returns (s: Stream)
      requires Valid()
      modifies this
      ensures Valid()
      ensures steps == old(steps) && idleSteps == old(idleSteps) && completed == old(completed)
      ensures storage.log == old(storage.log)
      ensures name in streams && s == streams[name]
      ensures name in old(streams) ==> s == old(streams)[name] && streams == old(streams)
      ensures name !in old(streams) ==>
        fresh(s) && streams == old(streams)[name := s] && s.order == [] && s.weights == map[] && s.queues == map[]
      ensures forall o :: o in streams.Values ==> o in old(streams).Values || fresh(o)
    {
      if name !in streams {
        var created := new Stream(name, storage);
        streams := streams[name := created];
      }
      s := streams[name];
    }

    /** `_check_completion()`: the event is set when as many steps are idle
        as are registered and every stream is empty; once set it stays set. */
    method CheckCompletion()
      requires Valid()
      modifies this`completed
      ensures Valid()
      ensures completed == (old(completed) || (|idleSteps| == |steps| && AllStreamsEmpty(streams)))
      ensures completed && !old(completed) ==> idleSteps == steps && AllStreamsEmpty(streams)
    {
      var allIdle := |idleSteps| == |steps|;
      var allEmpty := true;
      var rest := streams.Keys;
      while rest != {}
        invariant rest <= streams.Keys
        invariant completed == old(completed)
        invariant allEmpty <==> forall n :: n in streams && n !in rest ==> streams[n].AllEmpty()
      {
        var n :| n in rest;
        var e := streams[n].IsEmpty();
        allEmpty := allEmpty && e;
        rest := rest - {n};
      }
      AllIdleIff(idleSteps, steps);
      if allIdle && allEmpty {
        completed := true;
      }
    }

    /** `mark_step_idle(id)`: the step becomes known and idle, then completion
        is checked. */
    method MarkStepIdle(id: string)
      requires Valid()
      modifies this
      ensures Valid()
      ensures streams == old(streams) && storage.log == old(storage.log)
      ensures RegistryOf(streams) == old(RegistryOf(streams)) && AllStreamsEmpty(streams) == old(AllStreamsEmpty(streams))
      ensures steps == old(steps) + {id} && idleSteps == old(idleSteps) + {id}
      ensures completed == (old(completed) || (idleSteps == steps && AllStreamsEmpty(streams)))
    {
      steps := steps + {id};
      idleSteps := idleSteps + {id};
      AllIdleIff(idleSteps, steps);
      CheckCompletion();
    }

    /** `mark_step_active(id)`: the step becomes known and is no longer idle. */
    method MarkStepActive(id: string)
      requires Valid()
      modifies this
      ensures Valid()
      ensures streams == old(streams) && completed == old(completed) && storage.log == old(storage.log)
      ensures RegistryOf(streams) == old(RegistryOf(streams))
      ensures steps == old(steps) + {id} && idleSteps == old(idleSteps) - {id}
    {
      steps := steps + {id};
      idleSteps := idleSteps - {id};
    }

    /** `register_step(name)`, called by `Step.setup`: the step becomes known. */
    method RegisterStep(id: string)
      requires Valid()
      modifies this
      ensures Valid()
      ensures streams == old(streams) && completed == old(completed) && idleSteps == old(idleSteps)
      ensures storage.log == old(storage.log) && RegistryOf(streams) == old(RegistryOf(streams))
      ensures steps == old(steps) + {id}
    {
      steps := steps + {id};
    }

    /** Every stream's consumer queues, by stream name. */
    ghost function QueuesView(): map<string, map<string, seq<Message>>>
      reads this, streams.Values
    {
      map n | n in streams :: streams[n].queues
    }

    /** Every stream's consumer order, by stream name. */
    ghost function OrdersView(): map<string, seq<string>>
      reads this, streams.Values
    {
      map n | n in streams :: streams[n].order
    }

    /** Every stream's consumer weights, by stream name. */
    ghost function WeightsView(): map<string, map<string, int>>
      reads this, streams.Values
    {
      map n | n in streams :: streams[n].weights
    }

    /** Before any replay, the registry is trivially restored. */
    lemma RestoredAtStart(h: string -> int)
      ensures Restored(streams, QueuesView(), OrdersView(), WeightsView(), [], h)
    {
    }

    /** `restore_state()`: every stream with stored messages is fetched (and
        created if new), and its messages are put again in stored order with
        `_no_store=True`; the store itself is never written. */
    method RestoreState(h: string -> int)
      requires Valid()
      modifies this, storage, streams.Values
      ensures Valid()
      ensures storage.log == old(storage.log)
      ensures steps == old(steps) && idleSteps == old(idleSteps) && completed == old(completed)
      ensures Restored(old(streams), old(QueuesView()), old(OrdersView()), old(WeightsView()), StreamNames(storage.log), h)
      ensures forall n :: n in streams && n !in old(streams) ==> fresh(streams[n])
    {
      var names := StreamNames(storage.log);
      ghost var s0, q0, o0, w0 := streams, QueuesView(), OrdersView(), WeightsView();
      RestoredAtStart(h);
      var i := 0;
      while i < |names|
        invariant 0 <= i <= |names|
        invariant Valid()
        invariant storage.log == old(storage.log)
        invariant steps == old(steps) && idleSteps == old(idleSteps) && completed == old(completed)
        invariant Restored(s0, q0, o0, w0, names[..i], h)
        invariant forall o :: o in streams.Values ==> o in old(streams).Values || fresh(o)
        invariant forall n :: n in streams && n !in old(streams) ==> fresh(streams[n])
      {
        var name := names[i];
        NextName(names, i);
        RestoreStream(name, h, s0, q0, o0, w0, names[..i]);
        i := i + 1;
      }
      assert names[..i] == names;
    }

    /** The state reached by `restore_state()` once the streams named in `done`
        have been replayed, relative to the streams `s0` that existed before
        (with their queues `q0`, orders `o0` and weights `w0`): the registry
        holds the old streams and the replayed ones; an old stream keeps its
        object and consumers, and its queues received, by the routing of
        `put`, its stored messages if it was replayed; a stream created by
        the replay has no consumers and empty queues. */
    ghost predicate Restored(s0: map<string, Stream>, q0: map<string, map<string, seq<Message>>>, o0: map<string, seq<string>>,
                             w0: map<string, map<string, int>>, done: seq<string>, h: string -> int)
      reads this, storage, streams.Values
    {
      && (forall n :: n in streams <==> n in s0 || n in done)
      && QueuesRestored(s0, q0, o0, w0, done, h)
    }

    ghost predicate QueuesRestored(s0: map<string, Stream>, q0: map<string, map<string, seq<Message>>>, o0: map<string, seq<string>>,
                                   w0: map<string, map<string, int>>, done: seq<string>, h: string -> int)
      reads this, storage, streams.Values
    {
      && (forall n :: n in s0 ==>
            && n in streams && n in q0 && n in o0 && n in w0
            && streams[n] == s0[n] && streams[n].order == o0[n] && streams[n].weights == w0[n]
            && streams[n].queues == DeliverAll(q0[n], o0[n], w0[n], if n in done then MessagesOf(storage.log, n) else [], h))
      && (forall n :: n in streams && n !in s0 ==> streams[n].order == [] && streams[n].queues == map[])
    }

    /** One round of the loop in `restore_state()`: `get_stream(name)`, then
        its stored messages are put again with `_no_store=True`. */
    method RestoreStream(name: string, h: string -> int, ghost s0: map<string, Stream>, ghost q0: map<string, map<string, seq<Message>>>,
                         ghost o0: map<string, seq<string>>, ghost w0: map<string, map<string, int>>, ghost done: seq<string>)
      requires Valid() && Restored(s0, q0, o0, w0, done, h) && name !in done
      modifies this, storage, streams.Values
      ensures Valid() && Restored(s0, q0, o0, w0, done + [name], h)
      ensures storage.log == old(storage.log)
      ensures steps == old(steps) && idleSteps == old(idleSteps) && completed == old(completed)
      ensures forall n :: n in old(streams) ==> n in streams && streams[n] == old(streams)[n]
      ensures forall n :: n in streams && n !in old(streams) ==> fresh(streams[n])
      ensures forall o :: o in streams.Values ==> o in old(streams).Values || fresh(o)
    {
      var stream := FetchForRestore(name, h, s0, q0, o0, w0, done);
      ghost var registry := streams;
      ReplayStream(stream, name, h, s0, q0, o0, w0, done);
      assert streams == registry;
      assert forall n :: n in done + [name] <==> n in done || n == name;
    }

    /** The `get_stream(name)` call of one round of `restore_state()`: the
        registry gains `name` when it is new, with no consumers, and every
        other stream keeps its object and its queues. */
    method FetchForRestore(name: string, h: string -> int, ghost s0: map<string, Stream>, ghost q0: map<string, map<string, seq<Message>>>,
                           ghost o0: map<string, seq<string>>, ghost w0: map<string, map<string, int>>, ghost done: seq<string>)
      returns (stream: Stream)
      requires Valid() && Restored(s0, q0, o0, w0, done, h) && name !in done
      modifies this
      ensures Valid() && QueuesRestored(s0, q0, o0, w0, done, h)
      ensures forall n :: n in streams <==> n in s0 || n in done || n == name
      ensures name in streams && stream == streams[name]
      ensures storage.log == old(storage.log)
      ensures steps == old(steps) && idleSteps == old(idleSteps) && completed == old(completed)
      ensures forall n :: n in old(streams) ==> n in streams && streams[n] == old(streams)[n]
      ensures forall n :: n in streams && n !in old(streams) ==> fresh(streams[n])
      ensures forall o :: o in streams.Values ==> o in old(streams).Values || fresh(o)
    {
      stream := GetStream(name);
    }

    /** The `put` calls of one round of `restore_state()`, on a stream already
        in the registry. */
    method ReplayStream(stream: Stream, name: string, h: string -> int, ghost s0: map<string, Stream>,
                        ghost q0: map<string, map<string, seq<Message>>>, ghost o0: map<string, seq<string>>,
                        ghost w0: map<string, map<string, int>>, ghost done: seq<string>)
      requires Valid() && QueuesRestored(s0, q0, o0, w0, done, h) && name !in done
      requires name in streams && stream == streams[name]
      modifies stream, storage
      ensures Valid() && QueuesRestored(s0, q0, o0, w0, done + [name], h)
      ensures storage.log == old(storage.log)
    {
      ghost var others := set n | n in streams && n != name :: streams[n];
      assert stream !in others;
      var msgs := MessagesOf(storage.log, name);
      Replay(stream, msgs, h);
      if name !in s0 {
        DeliverAllNoConsumers(msgs, h);
      }
      forall n | n in streams && n != name
        ensures streams[n].order == old(streams[n].order) && streams[n].weights == old(streams[n].weights)
        ensures streams[n].queues == old(streams[n].queues)
      {
        assert streams[n] in others;
      }
      assert forall n :: n in done + [name] <==> n in done || n == name;
    }

    /** `unroll(msg)`: the merge groups of the id are peeled off from the
        rightmost `[`, then every `/`-prefix of every path is looked up. */
    method Unroll(msg: Message) returns (r: Result<map<string, Json>>)
      ensures r == UnrollOf(msg.cascadeId, storage.log)
    {
      var paths := CollectPaths(msg.cascadeId);
      if paths.Err? {
        return Err(paths.error);
      }
      var result := LookupPaths(paths.value, storage.log);
      r := Ok(result);
    }
  }
}
