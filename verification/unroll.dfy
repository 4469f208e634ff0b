/** The pure definition of `CascadeManager.unroll` (cascade_base.py): a cascade
    id is taken apart into lineage paths, and every `/`-prefix of every path
    is looked up in the store. */
module Unroll {
  import opened Base
  import opened Values
  import opened Text
  import opened Store
  import Sorting
  import Lineage

  /** `parse_step_name(seg)`, i.e. `seg.split(':', 1)[0]`: the text before
      the first `:`. */
  function StepName(seg: string): (r: string)
    ensures |r| <= |seg| && r == seg[..|r|]
    ensures ':' !in r
    ensures |r| < |seg| ==> seg[|r|] == ':'
  {
    match IndexFrom(seg, ':', 0)
    case None => seg
    case Some(k) => seg[..k]
  }

  /** The lineage paths of `id`: the `|`-parts of each `[...]` group, from
      the rightmost `[` leftwards, then what is left before the first group
      if it is not empty. `Err(ValueError)` when a `[` has no later `]`. */
  function Paths(id: string): (r: Result<seq<string>>)
    ensures r.Err? ==> r == Err(ValueError)
    decreases |id|
  {
    if '[' !in id then Ok(if id == "" then [] else [id])
    else
      var ms := LastIndexOf(id, '[').value;
      match IndexFrom(id, ']', ms)
      case None => Err(ValueError)
      case Some(me) =>
        var merged := Split(id[ms + 1..me], '|');
        match Paths(id[..ms])
        case Err(e) => Err(e)
        case Ok(rest) => Ok(merged + rest)
  }

  /** The id looked up for the first `j + 1` segments of a path. */
  function PrefixId(segs: seq<string>, j: nat): string
    requires j < |segs|
  {
    Join(segs[..j + 1], '/')
  }

  /** The payload stored under `id`, if any (`get_message(id)`). */
  function Lookup(log: seq<Row>, id: string): Option<Json> {
    match GetMessage(log, id)
    case None => None
    case Some(m) => Some(m.payload)
  }

  /** The `result` dict after the prefixes `j + 1 ..` of one path are looked up:
      each hit is recorded under its segment's step name, later hits winning. */
  function WalkPath(acc: map<string, Json>, segs: seq<string>, j: nat, log: seq<Row>): (r: map<string, Json>)
    ensures acc.Keys <= r.Keys
    decreases |segs| - j
  {
    if j >= |segs| then acc else WalkPath(Record(acc, segs, j, log), segs, j + 1, log)
  }

  /** One lookup of `unroll`: a hit on the `j`-th prefix is recorded under its
      segment's step name. */
  function Record(acc: map<string, Json>, segs: seq<string>, j: nat, log: seq<Row>): (r: map<string, Json>)
    requires j < |segs|
    ensures acc.Keys <= r.Keys
  {
    match Lookup(log, PrefixId(segs, j))
    case None => acc
    case Some(p) => acc[StepName(segs[j]) := p]
  }

  /** The `result` dict after each of `paths` has been walked in turn. */
  function Walk(acc: map<string, Json>, paths: seq<string>, log: seq<Row>): (r: map<string, Json>)
    ensures acc.Keys <= r.Keys
    ensures paths == [] ==> r == acc
    decreases |paths|
  {
    if paths == [] then acc
    else Walk(WalkPath(acc, Split(paths[0], '/'), 0, log), paths[1..], log)
  }

  /** `unroll(msg)` for a message with cascade id `id`. */
  function UnrollOf(id: string, log: seq<Row>): (r: Result<map<string, Json>>)
    ensures r.Ok? <==> Paths(id).Ok?
    ensures r.Err? ==> r == Err(ValueError)
  {
    match Paths(id)
    case Err(e) => Err(e)
    case Ok(paths) => Ok(Walk(map[], paths, log))
  }

  // ---------------------------------------------------------------- properties

  /** Step names of derived segments: the `:k=v,...` suffix is dropped. */
  lemma StepNameOfSegment(step: string, params: seq<(string, string)>)
    requires ':' !in step
    ensures StepName(step + Lineage.ParamSuffix(params)) == step
  {
    var seg := step + Lineage.ParamSuffix(params);
    var r := StepName(seg);
    assert seg[..|step|] == step;
  }

  /** A chain id without brackets is a single path. */
  lemma PathsOfChain(id: string)
    requires '[' !in id
    ensures Paths(id) == Ok(if id == "" then [] else [id])
  {
  }

  /** One bracket group in front of a bracket-free tail yields the group's
      `|`-parts and nothing else. */
  lemma PathsOfGroup(body: string, tail: string)
    requires '[' !in body && ']' !in body
    requires |tail| >= 1 && tail[0] == ']' && '[' !in tail
    ensures Paths("[" + body + tail) == Ok(Split(body, '|'))
  {
    var id := "[" + body + tail;
    forall t | 0 < t < |id| ensures id[t] != '[' {
      if t <= |body| { assert id[t] == body[t - 1]; } else { assert id[t] == tail[t - 1 - |body|]; }
    }
    LastIndexOfAt(id, '[', 0);
    forall t | 0 <= t < |body| + 1 ensures id[t] != ']' {
      if t > 0 { assert id[t] == body[t - 1]; }
    }
    assert id[|body| + 1] == ']';
    IndexFromAt(id, ']', 0, |body| + 1);
    assert id[1..|body| + 1] == body;
    assert id[..0] == "";
    assert id[0] == '[';
    assert Paths("") == Ok([]);
    assert Split(body, '|') + [] == Split(body, '|');
  }

  lemma SortedBracketFree(ids: seq<string>, sorted: seq<string>)
    requires multiset(sorted) == multiset(ids)
    requires forall k :: 0 <= k < |ids| ==> '[' !in ids[k] && ']' !in ids[k] && '|' !in ids[k]
    ensures forall k :: 0 <= k < |sorted| ==> '[' !in sorted[k] && ']' !in sorted[k] && '|' !in sorted[k]
  {
    forall k | 0 <= k < |sorted| ensures '[' !in sorted[k] && ']' !in sorted[k] && '|' !in sorted[k] {
      assert sorted[k] in multiset(ids);
      var m :| 0 <= m < |ids| && ids[m] == sorted[k];
    }
  }

  /** A merge id over bracket-free parent ids unrolls to exactly the parent
      ids, in sorted order; the merge step's own `/step` segment after the
      group is not looked up. */
  lemma PathsOfMerge(ids: seq<string>, step: string)
    requires |ids| >= 1
    requires forall k :: 0 <= k < |ids| ==> '[' !in ids[k] && ']' !in ids[k] && '|' !in ids[k]
    requires '[' !in step
    ensures Paths(Lineage.MergeIds(ids, step)) == Ok(Sorting.SortBy(ids, Le))
  {
    var sorted := Sorting.SortBy(ids, Le);
    SortedBracketFree(ids, sorted);
    PathsOfSortedGroup(sorted, step);
  }

  /** The group built from bracket-free parts unrolls to those parts. */
  lemma PathsOfSortedGroup(sorted: seq<string>, step: string)
    requires |sorted| >= 1
    requires forall k :: 0 <= k < |sorted| ==> '[' !in sorted[k] && ']' !in sorted[k] && '|' !in sorted[k]
    requires '[' !in step
    ensures Paths("[" + Join(sorted, '|') + "]/" + step) == Ok(sorted)
  {
    var body := Join(sorted, '|');
    JoinAvoids(sorted, '|', '[');
    JoinAvoids(sorted, '|', ']');
    SplitJoin(sorted, '|');
    var tail := "]/" + step;
    assert '[' !in tail by {
      forall t | 0 <= t < |tail| ensures tail[t] != '[' {
        if t >= 2 { assert tail[t] == step[t - 2]; }
      }
    }
    PathsOfGroup(body, tail);
    assert "[" + body + "]/" + step == "[" + body + tail;
  }

  /** Every `]` of `s` comes after some `[`, as in every id that
      `derive_cascade_id` and `merge_cascade_ids` build. */
  predicate OpensBeforeCloses(s: string) {
    forall j :: 0 <= j < |s| && s[j] == ']' ==> '[' in s[..j]
  }

  lemma OpensBeforeClosesConcat(a: string, b: string)
    requires OpensBeforeCloses(a) && OpensBeforeCloses(b)
    ensures OpensBeforeCloses(a + b)
  {
    var s := a + b;
    forall j | 0 <= j < |s| && s[j] == ']' ensures '[' in s[..j] {
      if j < |a| {
        assert s[..j] == a[..j];
      } else {
        assert b[j - |a|] == ']';
        var i :| 0 <= i < j - |a| && b[..j - |a|][i] == '[';
        assert s[|a| + i] == '[';
        assert s[..j][|a| + i] == '[';
      }
    }
  }

  lemma {:induction false} OpensBeforeClosesJoin(parts: seq<string>, c: char)
    requires c != ']'
    requires forall k :: 0 <= k < |parts| ==> OpensBeforeCloses(parts[k])
    ensures OpensBeforeCloses(Join(parts, c))
    decreases |parts|
  {
    if |parts| > 1 {
      OpensBeforeClosesJoin(parts[1..], c);
      OpensBeforeClosesConcat(parts[0], [c]);
      OpensBeforeClosesConcat(parts[0] + [c], Join(parts[1..], c));
    }
  }

  lemma {:induction false} JoinKeeps(parts: seq<string>, c: char, d: char, k: nat)
    requires k < |parts| && d in parts[k]
    ensures d in Join(parts, c)
    decreases |parts|
  {
    if |parts| > 1 {
      if k > 0 {
        JoinKeeps(parts[1..], c, d, k - 1);
      }
      assert Join(parts, c) == parts[0] + [c] + Join(parts[1..], c);
    }
  }

  /** The loop reaches every `[` of the id from the right, so a prefix cut
      at a `[` that fails makes the whole id fail. */
  lemma {:induction false} PathsCut(s: string, q: nat)
    requires q < |s| && s[q] == '[' && Paths(s[..q]).Err?
    ensures Paths(s).Err?
    decreases |s|
  {
    var ms := LastIndexOf(s, '[').value;
    assert q <= ms;
    match IndexFrom(s, ']', ms)
    case None =>
    case Some(me) =>
      if ms == q {
        assert s[..ms] == s[..q];
      } else {
        var t := s[..ms];
        assert t[q] == '[' && t[..q] == s[..q];
        PathsCut(t, q);
      }
  }

  /** An id opening with `[` whose text up to a later `[` holds no `]`
      fails: once the groups from that `[` on are peeled, the opening `[`
      has no `]` left. */
  lemma NestedFails(id: string, q: nat)
    requires 0 < q < |id| && id[0] == '[' && id[q] == '[' && ']' !in id[..q]
    ensures Paths(id) == Err(ValueError)
  {
    var t := id[..q];
    assert t[0] == '[';
    var ms := LastIndexOf(t, '[').value;
    assert IndexFrom(t, ']', ms).None?;
    PathsCut(id, q);
  }

  /** A merge one of whose parents holds a merge group of its own is not
      supported: `unroll` raises `ValueError` on it. */
  lemma PathsOfNestedMerge(ids: seq<string>, step: string, k: nat)
    requires k < |ids| && '[' in ids[k]
    requires forall j :: 0 <= j < |ids| ==> OpensBeforeCloses(ids[j])
    ensures Paths(Lineage.MergeIds(ids, step)) == Err(ValueError)
  {
    var sorted := Sorting.SortBy(ids, Le);
    var m := SortedOpensBeforeCloses(ids, sorted, k);
    OpensBeforeClosesJoin(sorted, '|');
    JoinKeeps(sorted, '|', '[', m);
    NestedGroupFails(Join(sorted, '|'), step);
  }

  /** A permutation of ids that open before they close does too, and keeps
      the `k`-th id at some position `m`. */
  lemma SortedOpensBeforeCloses(ids: seq<string>, sorted: seq<string>, k: nat) returns (m: nat)
    requires multiset(sorted) == multiset(ids)
    requires k < |ids|
    requires forall j :: 0 <= j < |ids| ==> OpensBeforeCloses(ids[j])
    ensures forall j :: 0 <= j < |sorted| ==> OpensBeforeCloses(sorted[j])
    ensures m < |sorted| && sorted[m] == ids[k]
  {
    forall j | 0 <= j < |sorted| ensures OpensBeforeCloses(sorted[j]) {
      assert sorted[j] in multiset(ids);
      var m :| 0 <= m < |ids| && ids[m] == sorted[j];
    }
    assert ids[k] in multiset(sorted);
    m :| 0 <= m < |sorted| && sorted[m] == ids[k];
  }

  /** A merge group whose body holds a `[` of its own cannot be unrolled. */
  lemma NestedGroupFails(body: string, step: string)
    requires '[' in body && OpensBeforeCloses(body)
    ensures Paths("[" + body + "]/" + step) == Err(ValueError)
  {
    var q := IndexFrom(body, '[', 0).value;
    var id := "[" + body + "]/" + step;
    assert id[q + 1] == '[';
    forall j | 0 <= j < q + 1 ensures id[j] != ']' {
      if j > 0 {
        assert id[j] == body[j - 1];
      }
    }
    NestedFails(id, q + 1);
  }

  /** Whether the `j`-th prefix of a path is in the store. */
  predicate Hit(log: seq<Row>, segs: seq<string>, j: nat)
    requires j < |segs|
  {
    Lookup(log, PrefixId(segs, j)).Some?
  }

  /** Walking one path records a key exactly for the step name of every
      prefix found in the store. */
  lemma {:induction false} WalkPathKeys(acc: map<string, Json>, segs: seq<string>, j: nat, log: seq<Row>)
    ensures forall key :: key in WalkPath(acc, segs, j, log) <==>
      key in acc || exists i :: j <= i < |segs| && Hit(log, segs, i) && StepName(segs[i]) == key
    decreases |segs| - j
  {
    if j < |segs| {
      WalkPathKeys(Record(acc, segs, j, log), segs, j + 1, log);
    }
  }

  /** A key that no prefix of the path hits keeps its earlier value. */
  lemma {:induction false} WalkPathKeeps(acc: map<string, Json>, segs: seq<string>, j: nat, log: seq<Row>, key: string)
    requires key in acc
    requires forall i :: j <= i < |segs| && Hit(log, segs, i) ==> StepName(segs[i]) != key
    ensures key in WalkPath(acc, segs, j, log) && WalkPath(acc, segs, j, log)[key] == acc[key]
    decreases |segs| - j
  {
    if j < |segs| {
      WalkPathKeys(Record(acc, segs, j, log), segs, j + 1, log);
      WalkPathKeeps(Record(acc, segs, j, log), segs, j + 1, log, key);
    }
  }

  /** A key holds the payload of the last prefix of the path that is found in
      the store and carries that step name: later hits overwrite earlier ones. */
  lemma {:induction false} WalkPathLastHit(acc: map<string, Json>, segs: seq<string>, j: nat, log: seq<Row>, i: nat)
    requires j <= i < |segs| && Hit(log, segs, i)
    requires forall i' :: i < i' < |segs| && Hit(log, segs, i') ==> StepName(segs[i']) != StepName(segs[i])
    ensures StepName(segs[i]) in WalkPath(acc, segs, j, log)
    ensures WalkPath(acc, segs, j, log)[StepName(segs[i])] == Lookup(log, PrefixId(segs, i)).value
    decreases |segs| - j
  {
    var next := Record(acc, segs, j, log);
    if j < i {
      WalkPathLastHit(next, segs, j + 1, log, i);
    } else {
      WalkPathKeeps(next, segs, j + 1, log, StepName(segs[i]));
    }
  }

  /** For a chain id built by `derive_cascade_id` whose own message is in the
      store, `unroll` succeeds and records that message's payload under the
      step name. */
  lemma UnrollRecordsOwnStep(parent: string, step: string, params: seq<(string, string)>, log: seq<Row>)
    requires step != "" && ':' !in step
    requires '[' !in parent && '[' !in step + Lineage.ParamSuffix(params)
    requires '/' !in step + Lineage.ParamSuffix(params)
    requires Lookup(log, Lineage.DeriveId(parent, step, params)).Some?
    ensures var r := UnrollOf(Lineage.DeriveId(parent, step, params), log);
      r.Ok? && step in r.value && r.value[step] == Lookup(log, Lineage.DeriveId(parent, step, params)).value
  {
    var id := Lineage.DeriveId(parent, step, params);
    DeriveIdLast(parent, step, params);
    UnrollRecordsLast(id, log);
  }

  /** The derived id is bracket-free and its last segment names the step. */
  lemma DeriveIdLast(parent: string, step: string, params: seq<(string, string)>)
    requires step != "" && ':' !in step
    requires '[' !in parent && '[' !in step + Lineage.ParamSuffix(params)
    requires '/' !in step + Lineage.ParamSuffix(params)
    ensures var id := Lineage.DeriveId(parent, step, params); var segs := Split(id, '/');
      '[' !in id && id != "" && StepName(segs[|segs| - 1]) == step
  {
    var id := Lineage.DeriveId(parent, step, params);
    DeriveIdBracketFree(parent, step + Lineage.ParamSuffix(params));
    var segs := Split(id, '/');
    Lineage.DeriveExtendsPath(parent, step, params);
    assert segs[|segs| - 1] == step + Lineage.ParamSuffix(params);
    StepNameOfSegment(step, params);
  }

  lemma DeriveIdBracketFree(parent: string, last: string)
    requires '[' !in parent && '[' !in last && last != ""
    ensures var id := if parent == "" then last else parent + "/" + last;
      '[' !in id && id != ""
  {
  }

  /** A bracket-free id that is stored unrolls to a dict holding its own
      payload under the step name of its last segment. */
  lemma UnrollRecordsLast(id: string, log: seq<Row>)
    requires '[' !in id && id != ""
    requires Lookup(log, id).Some?
    ensures var segs := Split(id, '/'); var r := UnrollOf(id, log);
      r.Ok? && StepName(segs[|segs| - 1]) in r.value && r.value[StepName(segs[|segs| - 1])] == Lookup(log, id).value
  {
    PathsOfChain(id);
    var segs := Split(id, '/');
    var i := |segs| - 1;
    JoinSplit(id, '/');
    assert segs[..i + 1] == segs;
    assert PrefixId(segs, i) == id;
    WalkPathLastHit(map[], segs, 0, log, i);
    assert Walk(map[], [id], log) == WalkPath(map[], segs, 0, log) by {
      assert [id][1..] == [];
    }
  }
}
