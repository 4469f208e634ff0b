/** The message store of cascade_base.py (`SQLiteStorage`). The SQLite table
    is modelled as an insert-only log of rows in insertion order; its primary
    key `(stream_name, cascade_id)` makes a second insert of a key fail. */
module Store {
  import opened Base
  import opened Values

  /** One row of the `messages` table. */
  datatype Row = Row(stream: string, msg: Message)

  /** Some row of `log` has the key `(stream, id)`. */
  predicate HasKey(log: seq<Row>, stream: string, id: string) {
    exists k :: 0 <= k < |log| && log[k].stream == stream && log[k].msg.cascadeId == id
  }

  /** The primary key holds: no two rows share `(stream_name, cascade_id)`. */
  predicate UniqueKeys(log: seq<Row>) {
    forall i, j :: 0 <= i < j < |log| ==>
      log[i].stream != log[j].stream || log[i].msg.cascadeId != log[j].msg.cascadeId
  }

  /** `get_all_messages(stream)`: the stream's rows, ordered by `created_at`.
      The model takes that order to be the order of the log: the clock is
      taken to be monotonic, and rows stamped in the same second are taken
      to come back in the order they were inserted. */
  function MessagesOf(log: seq<Row>, stream: string): (r: seq<Message>)
    ensures |r| <= |log|
    ensures forall m :: m in r <==> Row(stream, m) in log
  {
    if log == [] then []
    else
      var init := log[..|log| - 1];
      assert log == init + [log[|log| - 1]];
      MessagesOf(init, stream) + (if log[|log| - 1].stream == stream then [log[|log| - 1].msg] else [])
  }

  /** `get_all_streams()`: each stream name that has a row, once. The query
      fixes no order; the model lists the names by first appearance, and its
      contract states only which names are listed and that none repeats. */
  function StreamNames(log: seq<Row>): (r: seq<string>)
    ensures forall s :: s in r <==> exists k :: 0 <= k < |log| && log[k].stream == s
    ensures forall i, j :: 0 <= i < j < |r| ==> r[i] != r[j]
  {
    if log == [] then []
    else
      var init := log[..|log| - 1];
      var prev := StreamNames(init);
      assert forall k :: 0 <= k < |init| ==> init[k] == log[k];
      if log[|log| - 1].stream in prev then prev else prev + [log[|log| - 1].stream]
  }

  /** `get_message(id)`: the position of the first row, in any stream, whose
      cascade id is `id`. */
  function FirstWithId(log: seq<Row>, id: string): (r: Option<nat>)
    ensures r.Some? ==> r.value < |log| && log[r.value].msg.cascadeId == id
    ensures r.Some? ==> forall k :: 0 <= k < r.value ==> log[k].msg.cascadeId != id
    ensures r.None? <==> forall k :: 0 <= k < |log| ==> log[k].msg.cascadeId != id
  {
    if log == [] then None
    else if log[0].msg.cascadeId == id then Some(0)
    else match FirstWithId(log[1..], id)
      case None => None
      case Some(k) => Some(k + 1)
  }

  /** The message `get_message(id)` returns, if any. */
  function GetMessage(log: seq<Row>, id: string): (r: Option<Message>)
    ensures r.Some? <==> exists k :: 0 <= k < |log| && log[k].msg.cascadeId == id
    ensures r.Some? ==> r.value.cascadeId == id && exists s :: Row(s, r.value) in log
  {
    match FirstWithId(log, id)
    case None => None
    case Some(k) => assert log[k] == Row(log[k].stream, log[k].msg); Some(log[k].msg)
  }

  /** A stream without rows has no messages. */
  lemma {:induction false} MessagesOfAbsent(log: seq<Row>, stream: string)
    requires stream !in StreamNames(log)
    ensures MessagesOf(log, stream) == []
  {
    if log != [] {
      var init := log[..|log| - 1];
      assert log[|log| - 1].stream != stream;
      assert forall k :: 0 <= k < |init| ==> init[k] == log[k];
      MessagesOfAbsent(init, stream);
    }
  }

  /** Appending a row adds its message to the end of its own stream's list and
      leaves every other stream's list alone. */
  lemma MessagesOfAppend(log: seq<Row>, row: Row, stream: string)
    ensures MessagesOf(log + [row], stream) ==
      MessagesOf(log, stream) + (if row.stream == stream then [row.msg] else [])
  {
    assert (log + [row])[..|log|] == log;
  }

  /** Under the primary key, a row's id differs from the id of every
      earlier message of its stream. */
  lemma LastIdFresh(init: seq<Row>, last: Row)
    requires UniqueKeys(init + [last])
    ensures forall m :: m in MessagesOf(init, last.stream) ==> m.cascadeId != last.msg.cascadeId
  {
    var log := init + [last];
    forall m | m in MessagesOf(init, last.stream) ensures m.cascadeId != last.msg.cascadeId {
      assert Row(last.stream, m) in init;
      var k :| 0 <= k < |init| && init[k] == Row(last.stream, m);
      assert log[k] == init[k] && log[|init|] == last;
    }
  }

  /** Appending a message whose id is new keeps the ids pairwise distinct. */
  lemma SnocDistinctIds(ms: seq<Message>, m: Message)
    requires forall i, j :: 0 <= i < j < |ms| ==> ms[i].cascadeId != ms[j].cascadeId
    requires forall x :: x in ms ==> x.cascadeId != m.cascadeId
    ensures var r := ms + [m];
      forall i, j :: 0 <= i < j < |r| ==> r[i].cascadeId != r[j].cascadeId
  {
    var r := ms + [m];
    forall i, j | 0 <= i < j < |r| ensures r[i].cascadeId != r[j].cascadeId {
      if j == |ms| {
        assert r[i] == ms[i] && ms[i] in ms;
      } else {
        assert r[i] == ms[i] && r[j] == ms[j];
      }
    }
  }

  /** Under the primary key, a stream's messages carry pairwise distinct ids. */
  lemma {:induction false} MessagesOfUniqueIds(log: seq<Row>, stream: string)
    requires UniqueKeys(log)
    ensures var ms := MessagesOf(log, stream);
      forall i, j :: 0 <= i < j < |ms| ==> ms[i].cascadeId != ms[j].cascadeId
  {
    if log != [] {
      var init := log[..|log| - 1];
      var last := log[|log| - 1];
      assert log == init + [last];
      assert UniqueKeys(init);
      MessagesOfUniqueIds(init, stream);
      MessagesOfAppend(init, last, stream);
      if last.stream == stream {
        LastIdFresh(init, last);
        SnocDistinctIds(MessagesOf(init, stream), last.msg);
      }
    }
  }

  class Storage {
    var log: seq<Row>

    ghost predicate Valid()
      reads this
    {
      UniqueKeys(log)
    }

    constructor ()
      ensures Valid() && log == []
    {
      log := [];
    }

    /** `exists(stream_name, cascade_id)`. */
    predicate Exists(stream: string, id: string)
      reads this
    {
      HasKey(log, stream, id)
    }

    /** `store(stream_name, msg)`. `ok` is false when the insert violates the
        primary key (sqlite3.IntegrityError); the log is then unchanged. */
    method Store(stream: string, msg: Message) returns (ok: bool)
      requires Valid()
      modifies this
      ensures Valid()
      ensures ok <==> !old(HasKey(log, stream, msg.cascadeId))
      ensures log == if ok then old(log) + [Row(stream, msg)] else old(log)
    {
      ok := !HasKey(log, stream, msg.cascadeId);
      if ok {
        log := log + [Row(stream, msg)];
      }
    }
  }
}
