/** `Stream` of cascade_base.py: named message streams with weighted,
    hash-routed consumer queues. Queues are sequences of messages; Python's
    `hash` is the parameter `h`, an arbitrary function. */
module Streams {
  import opened Base
  import opened Values
  import opened Store

  // ---------------------------------------------------------------- routing specification

  /** `[c] * n`: `n` copies of `c`, none when `n <= 0`. */
  function Repeat(c: string, n: int): (r: seq<string>)
    ensures |r| == if n <= 0 then 0 else n
    ensures forall k :: 0 <= k < |r| ==> r[k] == c
    decreases n
  {
    if n <= 0 then [] else [c] + Repeat(c, n - 1)
  }

  /** The weight registered for `c` (0 for an unknown consumer). */
  function WeightOf(weights: map<string, int>, c: string): int {
    if c in weights then weights[c] else 0
  }

  /** The share `c` takes in the weighted list: its weight, or 0 if not positive. */
  function Share(weights: map<string, int>, c: string): nat {
    if WeightOf(weights, c) > 0 then WeightOf(weights, c) else 0
  }

  /** The `weighted_consumers` list `put` builds: each consumer, in
      registration order, repeated by its weight. */
  function Expand(order: seq<string>, weights: map<string, int>): (r: seq<string>)
    ensures forall k :: 0 <= k < |r| ==> r[k] in order
  {
    if order == [] then []
    else
      var init := order[..|order| - 1];
      var last := order[|order| - 1];
      assert forall c :: c in init ==> c in order;
      Expand(init, weights) + Repeat(last, WeightOf(weights, last))
  }

  /** The sum of all shares: the length of the weighted list. */
  function TotalWeight(order: seq<string>, weights: map<string, int>): nat {
    if order == [] then 0
    else TotalWeight(order[..|order| - 1], weights) + Share(weights, order[|order| - 1])
  }

  lemma {:induction false} RepeatCount(c: string, n: int, d: string)
    ensures multiset(Repeat(c, n))[d] == if d == c then Share(map[c := n], c) else 0
    decreases n
  {
    if n > 0 {
      RepeatCount(c, n - 1, d);
      assert multiset(Repeat(c, n)) == multiset{c} + multiset(Repeat(c, n - 1));
    }
  }

  /** Every consumer occupies exactly its share of slots in the weighted list,
      so the list is as long as the sum of the positive weights; a consumer of
      weight 0 (or less) never appears in it. */
  lemma {:induction false} ExpandCount(order: seq<string>, weights: map<string, int>, c: string)
    requires forall i, j :: 0 <= i < j < |order| ==> order[i] != order[j]
    ensures multiset(Expand(order, weights))[c] == if c in order then Share(weights, c) else 0
    ensures |Expand(order, weights)| == TotalWeight(order, weights)
  {
    if order != [] {
      var init := order[..|order| - 1];
      var last := order[|order| - 1];
      assert order == init + [last];
      ExpandCount(init, weights, c);
      RepeatCount(last, WeightOf(weights, last), c);
      var rep := Repeat(last, WeightOf(weights, last));
      assert Expand(order, weights) == Expand(init, weights) + rep;
      assert multiset(Expand(order, weights)) == multiset(Expand(init, weights)) + multiset(rep);
      assert Share(map[last := WeightOf(weights, last)], last) == Share(weights, last);
      assert last !in init;
      assert c in order <==> c in init || c == last;
    }
  }

  /** The consumer `put` picks by consistent hashing: slot
      `hash(id) % len(weighted_consumers)`, none when the list is empty. */
  function Chosen(order: seq<string>, weights: map<string, int>, id: string, h: string -> int): (r: Option<string>)
    ensures r.Some? <==> |Expand(order, weights)| > 0
    ensures r.Some? ==> r.value in order
  {
    var e := Expand(order, weights);
    if |e| == 0 then None else Some(e[h(id) % |e|])
  }

  /** The weight-0 consumers of `cs`, each given a copy of `msg`. */
  function Broadcast(q: map<string, seq<Message>>, cs: seq<string>, weights: map<string, int>, msg: Message)
    : (r: map<string, seq<Message>>)
    ensures r.Keys == q.Keys
    ensures forall c :: c in q ==> q[c] <= r[c]
  {
    if cs == [] then q
    else
      var b := Broadcast(q, cs[..|cs| - 1], weights, msg);
      var c := cs[|cs| - 1];
      if c in weights && weights[c] == 0 && c in b then b[c := b[c] + [msg]] else b
  }

  /** The queues after `put` delivered `msg`. */
  function Deliver(q: map<string, seq<Message>>, order: seq<string>, weights: map<string, int>,
                   msg: Message, h: string -> int): (r: map<string, seq<Message>>)
    ensures r.Keys == q.Keys
    ensures forall c :: c in q ==> q[c] <= r[c]
  {
    var b := Broadcast(q, order, weights, msg);
    match Chosen(order, weights, msg.cascadeId, h)
    case None => b
    case Some(c) => if c in b then b[c := b[c] + [msg]] else b
  }

  /** The queues after `put` delivered each of `msgs` in turn. */
  function DeliverAll(q: map<string, seq<Message>>, order: seq<string>, weights: map<string, int>,
                      msgs: seq<Message>, h: string -> int): map<string, seq<Message>>
  {
    if msgs == [] then q
    else Deliver(DeliverAll(q, order, weights, msgs[..|msgs| - 1], h), order, weights, msgs[|msgs| - 1], h)
  }

  lemma ExpandSnoc(order: seq<string>, c: string, weights: map<string, int>)
    ensures Expand(order + [c], weights) == Expand(order, weights) + Repeat(c, WeightOf(weights, c))
  {
    assert (order + [c])[..|order|] == order;
  }

  lemma BroadcastSnoc(q: map<string, seq<Message>>, cs: seq<string>, c: string, weights: map<string, int>, msg: Message)
    ensures var b := Broadcast(q, cs, weights, msg);
      Broadcast(q, cs + [c], weights, msg) ==
        if c in weights && weights[c] == 0 && c in b then b[c := b[c] + [msg]] else b
  {
    assert (cs + [c])[..|cs|] == cs;
  }

  /** One more consumer in the loop of `put`. */
  lemma SpreadStep(q: map<string, seq<Message>>, order: seq<string>, i: nat, weights: map<string, int>, msg: Message)
    requires i < |order|
    ensures Expand(order[..i + 1], weights) == Expand(order[..i], weights) + Repeat(order[i], WeightOf(weights, order[i]))
    ensures var b := Broadcast(q, order[..i], weights, msg);
      var c := order[i];
      Broadcast(q, order[..i + 1], weights, msg) ==
        if c in weights && weights[c] == 0 && c in b then b[c := b[c] + [msg]] else b
  {
    assert order[..i + 1] == order[..i] + [order[i]];
    ExpandSnoc(order[..i], order[i], weights);
    BroadcastSnoc(q, order[..i], order[i], weights, msg);
  }

  lemma DeliverUnfold(q: map<string, seq<Message>>, order: seq<string>, weights: map<string, int>,
                      msg: Message, h: string -> int)
    ensures var b := Broadcast(q, order, weights, msg);
      var e := Expand(order, weights);
      Deliver(q, order, weights, msg, h) ==
        if |e| == 0 then b
        else if e[h(msg.cascadeId) % |e|] in b then b[e[h(msg.cascadeId) % |e|] := b[e[h(msg.cascadeId) % |e|]] + [msg]]
        else b
  {
  }

  /** With no consumers `put` enqueues nothing. */
  lemma DeliverNoConsumers(q: map<string, seq<Message>>, weights: map<string, int>, msg: Message, h: string -> int)
    ensures Deliver(q, [], weights, msg, h) == q
  {
  }

  /** The consumer bookkeeping of a stream agrees: registration order lists
      each consumer once, and every consumer has a weight and a queue. */
  ghost predicate Consistent(order: seq<string>, weights: map<string, int>, q: map<string, seq<Message>>) {
    && (forall i, j :: 0 <= i < j < |order| ==> order[i] != order[j])
    && (forall c :: c in order <==> c in weights)
    && weights.Keys == q.Keys
  }

  lemma {:induction false} BroadcastSpec(q: map<string, seq<Message>>, cs: seq<string>, weights: map<string, int>, msg: Message)
    requires forall i, j :: 0 <= i < j < |cs| ==> cs[i] != cs[j]
    ensures forall c :: c in q ==>
      Broadcast(q, cs, weights, msg)[c] ==
        if c in cs && c in weights && weights[c] == 0 then q[c] + [msg] else q[c]
  {
    if cs != [] {
      var init := cs[..|cs| - 1];
      var last := cs[|cs| - 1];
      BroadcastSpec(q, init, weights, msg);
      assert cs == init + [last];
      assert last !in init;
    }
  }

  /** The hashed choice exists exactly when some consumer has positive
      weight, and it always falls on such a consumer: a weight-0 consumer is
      never the hashed choice. */
  lemma ChosenSpec(order: seq<string>, weights: map<string, int>, id: string, h: string -> int)
    requires forall i, j :: 0 <= i < j < |order| ==> order[i] != order[j]
    requires forall c :: c in order <==> c in weights
    ensures Chosen(order, weights, id, h).Some? <==> exists c :: c in weights && weights[c] > 0
    ensures Chosen(order, weights, id, h).Some? ==> weights[Chosen(order, weights, id, h).value] > 0
  {
    var ch := Chosen(order, weights, id, h);
    if ch.Some? {
      var c := ch.value;
      ExpandCount(order, weights, c);
      assert c in multiset(Expand(order, weights));
    } else {
      forall c | c in weights && weights[c] > 0 ensures false {
        ExpandCount(order, weights, c);
      }
    }
  }

  /** The routing rule of `put`: every weight-0 consumer gets the message, and
      so does the consumer at the hashed slot of the weighted list; nobody
      else does. */
  lemma DeliverSpec(q: map<string, seq<Message>>, order: seq<string>, weights: map<string, int>,
                    msg: Message, h: string -> int)
    requires Consistent(order, weights, q)
    ensures Deliver(q, order, weights, msg, h).Keys == q.Keys
    ensures forall c :: c in q ==>
      Deliver(q, order, weights, msg, h)[c] ==
        q[c] + (if weights[c] == 0 || Chosen(order, weights, msg.cascadeId, h) == Some(c) then [msg] else [])
  {
    BroadcastSpec(q, order, weights, msg);
    ChosenSpec(order, weights, msg.cascadeId, h);
  }

  // ---------------------------------------------------------------- the stream object

  /** What `get(consumer)` yields: the next message; nothing yet (the Python
      coroutine would wait); or the `ValueError` for an unregistered consumer. */
  datatype GetResult = Got(msg: Message) | WouldBlock | NotRegistered

  /** The consumer state of one stream: the consumer ids in dict order, their
      weights and their queues. */
  datatype Consumers = Consumers(order: seq<string>, weights: map<string, int>, queues: map<string, seq<Message>>)

  class Stream {
    const name: string
    const storage: Storage
    /** The consumer ids in the order the `consumers` dict holds them. */
    var order: seq<string>
    var weights: map<string, int>
    var queues: map<string, seq<Message>>

    ghost predicate Valid()
      reads this
    {
      Consistent(order, weights, queues)
    }

    /** The stream's consumer state as a value. */
    ghost function State(): Consumers
      reads this
    {
      Consumers(order, weights, queues)
    }

    /** All consumer queues are empty. */
    ghost predicate AllEmpty()
      reads this
    {
      forall c :: c in queues ==> queues[c] == []
    }

    constructor (name: string, storage: Storage)
      ensures this.name == name && this.storage == storage
      ensures order == [] && weights == map[] && queues == map[]
      ensures Valid()
    {
      this.name := name;
      this.storage := storage;
      order := [];
      weights := map[];
      queues := map[];
    }

    /** `register_consumer(id, weight)`: a new consumer goes last; an existing
        one keeps its place and gets the new weight and a new, empty queue. */
    method RegisterConsumer(id: string, weight: int)
      requires Valid()
      modifies this
      ensures Valid()
      ensures order == if id in old(order) then old(order) else old(order) + [id]
      ensures weights == old(weights)[id := weight]
      ensures queues == old(queues)[id := []]
    {
      if id !in order {
        order := order + [id];
      }
      weights := weights[id := weight];
      queues := queues[id := []];
    }

    /** `check_exists(cascade_id)`. */
    predicate CheckExists(id: string)
      reads this, storage
    {
      HasKey(storage.log, name, id)
    }

    /** `put(msg, _no_store)`: unless `noStore`, the message is stored first;
        `ok` is false when that insert hit the primary key, and then nothing is
        enqueued. Otherwise the queues become `Deliver(...)`. */
    method Put(msg: Message, noStore: bool, h: string -> int) returns (ok: bool)
      requires Valid() && storage.Valid()
      modifies this, storage
      ensures Valid() && storage.Valid()
      ensures order == old(order) && weights == old(weights)
      ensures ok <==> noStore || !old(HasKey(storage.log, name, msg.cascadeId))
      ensures storage.log == if noStore || !ok then old(storage.log) else old(storage.log) + [Row(name, msg)]
      ensures queues == if ok then Deliver(old(queues), order, weights, msg, h) else old(queues)
      ensures old(order) == [] ==> queues == old(queues)
    {
      if !noStore {
        ok := storage.Store(name, msg);
        if !ok {
          return;
        }
      } else {
        ok := true;
      }
      if |order| == 0 {
        DeliverNoConsumers(queues, weights, msg, h);
        return;
      }
      Dispatch(msg, h);
    }

    /** The enqueueing half of `put`: weight-0 consumers in the loop, then the
        hashed slot of the weighted list. */
    method Dispatch(msg: Message, h: string -> int)
      requires Valid()
      modifies this
      ensures Valid()
      ensures order == old(order) && weights == old(weights)
      ensures queues == Deliver(old(queues), order, weights, msg, h)
    {
      var weighted := Spread(msg);
      DeliverUnfold(old(queues), order, weights, msg, h);
      if |weighted| > 0 {
        var idx := h(msg.cascadeId) % |weighted|;
        var c := weighted[idx];
        queues := queues[c := queues[c] + [msg]];
      }
    }

    /** The loop of `put` over the consumers: each weight-0 consumer gets a
        copy of `msg`, and the weighted list is built. */
    method Spread(msg: Message) returns (weighted: seq<string>)
      requires Valid()
      modifies this
      ensures Valid()
      ensures order == old(order) && weights == old(weights)
      ensures weighted == Expand(order, weights)
      ensures queues == Broadcast(old(queues), order, weights, msg)
    {
      weighted := [];
      var i := 0;
      while i < |order|
        invariant 0 <= i <= |order|
        invariant order == old(order) && weights == old(weights)
        invariant weighted == Expand(order[..i], weights)
        invariant queues == Broadcast(old(queues), order[..i], weights, msg)
      {
        var c := order[i];
        SpreadStep(old(queues), order, i, weights, msg);
        if weights[c] == 0 {
          queues := queues[c := queues[c] + [msg]];
        }
        weighted := weighted + Repeat(c, weights[c]);
        i := i + 1;
      }
      assert order[..i] == order;
    }

    /** `get(consumer)`: takes the head of the consumer's queue. */
    method Get(consumer: string) returns (r: GetResult)
      requires Valid()
      modifies this
      ensures Valid() && order == old(order) && weights == old(weights)
      ensures consumer !in old(queues) ==> r == NotRegistered && queues == old(queues)
      ensures consumer in old(queues) && old(queues)[consumer] == [] ==> r == WouldBlock && queues == old(queues)
      ensures consumer in old(queues) && old(queues)[consumer] != [] ==>
        r == Got(old(queues)[consumer][0]) && queues == old(queues)[consumer := old(queues)[consumer][1..]]
    {
      if consumer !in queues {
        return NotRegistered;
      }
      var q := queues[consumer];
      if q == [] {
        return WouldBlock;
      }
      r := Got(q[0]);
      queues := queues[consumer := q[1..]];
    }

    /** `is_empty()`: true exactly when every consumer queue is empty. */
    method IsEmpty() returns (b: bool)
      requires Valid()
      ensures b <==> AllEmpty()
    {
      b := true;
      var i := 0;
      while i < |order| && b
        invariant 0 <= i <= |order|
        invariant b <==> forall k :: 0 <= k < i ==> queues[order[k]] == []
      {
        b := queues[order[i]] == [];
        i := i + 1;
      }
    }
  }
}
