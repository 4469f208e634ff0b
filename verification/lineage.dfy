/** Lineage ids (cascade ids): `Message.derive_cascade_id` and
    `Message.merge_cascade_ids` of cascade_base.py. */
module Lineage {
  import opened Text
  import Sorting

  /** Python's ordering of `(key, value)` tuples: by key, then by value. */
  predicate ParamLe(p: (string, string), q: (string, string)) {
    if p.0 == q.0 then Le(p.1, q.1) else Le(p.0, q.0)
  }

  lemma ParamLeTotalOrder()
    ensures Sorting.TotalOrder(ParamLe)
  {
    LeTotalOrder();
    forall p: (string, string), q: (string, string) | ParamLe(p, q) && ParamLe(q, p)
      ensures p == q
    {
      if p.0 == q.0 { LeAntisymmetric(p.1, q.1); } else { LeAntisymmetric(p.0, q.0); }
    }
    forall p: (string, string), q: (string, string), r: (string, string) | ParamLe(p, q) && ParamLe(q, r)
      ensures ParamLe(p, r)
    {
      if p.0 == q.0 == r.0 {
        LeTransitive(p.1, q.1, r.1);
      } else if p.0 == r.0 {
        // p.0 <= q.0 <= p.0 with q.0 != p.0 is impossible
        if p.0 == q.0 { } else { LeAntisymmetric(p.0, q.0); }
      } else {
        LeTransitive(p.0, q.0, r.0);
      }
    }
  }

  /** `f"{k}={v}"` for every parameter, keeping the order. */
  function RenderParams(ps: seq<(string, string)>): (r: seq<string>)
    ensures |r| == |ps|
    ensures forall k :: 0 <= k < |ps| ==> r[k] == ps[k].0 + "=" + ps[k].1
  {
    if ps == [] then [] else [ps[0].0 + "=" + ps[0].1] + RenderParams(ps[1..])
  }

  /** The `:k=v,...` suffix, pairs in sorted order; empty without parameters. */
  function ParamSuffix(params: seq<(string, string)>): (r: string)
    ensures r == "" <==> params == []
    ensures r != "" ==> r[0] == ':'
  {
    if params == [] then "" else ":" + Join(RenderParams(Sorting.SortBy(params, ParamLe)), ',')
  }

  /** `msg.derive_cascade_id(step_name, **params)`: parameter values are given as
      their `str()` text. */
  function DeriveId(parent: string, step: string, params: seq<(string, string)>): (r: string)
    ensures parent != "" ==> |r| > |parent| && r[..|parent| + 1] == parent + "/"
  {
    var last := step + ParamSuffix(params);
    if parent == "" then last else parent + "/" + last
  }

  /** `Message.merge_cascade_ids(ids, step_name)`. */
  function MergeIds(ids: seq<string>, step: string): (r: string)
    ensures |r| >= |step| + 3 && r[0] == '[' && r[|r| - |step| - 2..] == "]/" + step
  {
    "[" + Join(Sorting.SortBy(ids, Le), '|') + "]/" + step
  }

  /** Without a parent the id is the step name (plus suffix); with one it is the
      parent's `/`-path extended by exactly one segment. */
  lemma DeriveExtendsPath(parent: string, step: string, params: seq<(string, string)>)
    requires '/' !in step + ParamSuffix(params)
    ensures parent == "" ==> DeriveId(parent, step, params) == step + ParamSuffix(params)
    ensures parent == "" ==> Split(DeriveId(parent, step, params), '/') == [step + ParamSuffix(params)]
    ensures parent != "" ==>
      Split(DeriveId(parent, step, params), '/') == Split(parent, '/') + [step + ParamSuffix(params)]
  {
    var last := step + ParamSuffix(params);
    var id := DeriveId(parent, step, params);
    SplitNoSeparator(last, '/');
    if parent != "" {
      assert Split(id, '/') == Split(parent, '/') + [last] by {
        assert id == parent + ['/'] + last;
        SplitConcat(parent, last, '/');
      }
    }
  }

  /** With parameters the suffix is `:` and the `k=v` texts joined by `,` in
      sorted order; the order the parameters were passed in does not matter. */
  lemma ParamSuffixSorted(params: seq<(string, string)>)
    requires params != []
    ensures exists sorted: seq<(string, string)> ::
      && Sorting.SortedBy(sorted, ParamLe)
      && multiset(sorted) == multiset(params)
      && ParamSuffix(params) == ":" + Join(RenderParams(sorted), ',')
  {
    ParamLeTotalOrder();
    var sorted := Sorting.SortBy(params, ParamLe);
    Sorting.SortBySorted(params, ParamLe);
    assert Sorting.SortedBy(sorted, ParamLe) && multiset(sorted) == multiset(params);
  }

  lemma DeriveIgnoresParamOrder(parent: string, step: string, ps: seq<(string, string)>, qs: seq<(string, string)>)
    requires multiset(ps) == multiset(qs)
    ensures DeriveId(parent, step, ps) == DeriveId(parent, step, qs)
  {
    ParamLeTotalOrder();
    Sorting.SortByCanonical(ps, qs, ParamLe);
    if ps == [] {
      assert |qs| == |multiset(qs)| == 0;
    } else {
      assert |qs| == |multiset(qs)| == |multiset(ps)| == |ps| > 0;
    }
  }

  /** The parents of a merge id appear bracketed, `|`-joined, in sorted order,
      followed by `/` and the step name. */
  lemma MergeIdsShape(ids: seq<string>, step: string)
    ensures exists sorted: seq<string> ::
      && Sorting.SortedBy(sorted, Le)
      && multiset(sorted) == multiset(ids)
      && MergeIds(ids, step) == "[" + Join(sorted, '|') + "]/" + step
  {
    LeTotalOrder();
    Sorting.SortBySorted(ids, Le);
    var sorted := Sorting.SortBy(ids, Le);
    assert Sorting.SortedBy(sorted, Le) && multiset(sorted) == multiset(ids);
  }

  /** Arrival order of the parents does not change the merge id. */
  lemma MergeIgnoresOrder(ids: seq<string>, others: seq<string>, step: string)
    requires multiset(ids) == multiset(others)
    ensures MergeIds(ids, step) == MergeIds(others, step)
  {
    LeTotalOrder();
    Sorting.SortByCanonical(ids, others, Le);
  }
}
