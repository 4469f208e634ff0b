/** `StepIdeaSource` of cascade_steps.py: the parameter check of its setup
    and the result shape of `generate`. `random.sample` is the parameter
    `pick`, given the item number, the field name, the population and the
    sample size. */
module IdeaSource {
  import opened Base
  import opened Values

  /** `StepIdeaSource._setup`: `count` and then `schema` must be parameters. */
  function IdeaSetup(params: map<string, Json>): (r: Option<PyError>)
    ensures r == None <==> "count" in params && "schema" in params
    ensures r.Some? ==> r.value == ValueError
  {
    if "count" !in params then Some(ValueError)
    else if "schema" !in params then Some(ValueError)
    else None
  }

  // ---------------------------------------------------------------- Python helpers

  /** `needle in hay` for two strings. */
  predicate IsInfix(needle: string, hay: string) {
    needle <= hay || (hay != [] && IsInfix(needle, hay[1..]))
  }

  /** `key in v`: a key of a dict, an element of a list, a substring of a
      str; a TypeError for a number, a bool or None. */
  function Member(v: Json, key: string): (r: Result<bool>)
    ensures r.Err? <==> !(v.JObj? || v.JList? || v.JStr?)
    ensures r.Err? ==> r == Err(TypeError)
    ensures v.JObj? ==> (r == Ok(true) <==> Index(v, key).Ok?)
  {
    match v
    case JObj(f) => Ok(Field(f, key).Some?)
    case JList(items) => Ok(JStr(key) in items)
    case JStr(s) => Ok(IsInfix(key, s))
    case _ => Err(TypeError)
  }

  /** `v[key]`: a dict lookup; a str index into a list or a str is a TypeError. */
  function Index(v: Json, key: string): (r: Result<Json>)
    ensures r.Ok? <==> v.JObj? && Field(v.fields, key).Some?
    ensures r.Ok? ==> Field(v.fields, key) == Some(r.value)
  {
    match v
    case JObj(f) => (match Field(f, key) case Some(x) => Ok(x) case None => Err(KeyError))
    case _ => Err(TypeError)
  }

  /** `v.get(key, default)` on a dict; other values have no `get`. */
  function GetField(v: Json, key: string, default: Json): (r: Result<Json>)
    ensures r.Ok? <==> v.JObj?
    ensures v.JObj? && Field(v.fields, key).None? ==> r == Ok(default)
    ensures v.JObj? && Field(v.fields, key).Some? ==> r == Ok(Field(v.fields, key).value)
  {
    match v
    case JObj(f) => Ok(match Field(f, key) case Some(x) => x case None => default)
    case _ => Err(AttributeError)
  }

  /** `result[key] = v`: an existing key keeps its place, a new one goes last. */
  function SetField(fields: seq<(string, Json)>, key: string, v: Json): (r: seq<(string, Json)>)
    ensures Field(r, key) == Some(v)
    ensures forall other :: other != key ==> Field(r, other) == Field(fields, other)
    ensures |r| <= |fields| + 1
  {
    if fields == [] then [(key, v)]
    else if fields[0].0 == key then [(key, v)] + fields[1..]
    else
      assert ([fields[0]] + SetField(fields[1..], key, v))[1..] == SetField(fields[1..], key, v);
      [fields[0]] + SetField(fields[1..], key, v)
  }

  /** The population `random.sample` draws from: a list's items or a str's characters. */
  function Population(v: Json): (r: Result<seq<Json>>)
    ensures v.JList? ==> r == Ok(v.items)
    ensures v.JStr? ==> r.Ok? && |r.value| == |v.s|
    ensures r.Ok? <==> v.JList? || v.JStr?
  {
    match v
    case JList(items) => Ok(items)
    case JStr(s) => Ok(seq(|s|, k requires 0 <= k < |s| => JStr([s[k]])))
    case _ => Err(TypeError)
  }

  /** What `random.sample(population, k)` promises for `0 <= k <= len(population)`:
      `k` items drawn from distinct positions of the population. */
  ghost predicate SamplerSound(pick: (nat, string, seq<Json>, nat) -> seq<Json>) {
    forall i: nat, key: string, pop: seq<Json>, k: nat :: k <= |pop| ==>
      |pick(i, key, pop, k)| == k && multiset(pick(i, key, pop, k)) <= multiset(pop)
  }

  // ---------------------------------------------------------------- generate

  /** The value one schema entry contributes to item `i`: `None` when the entry
      has neither `sample` nor `constant`. */
  function FieldValue(param: Json, i: nat, key: string, pick: (nat, string, seq<Json>, nat) -> seq<Json>): (r: Result<Option<Json>>)
    requires SamplerSound(pick)
    ensures param.JNull? || param.JBool? || param.JInt? ==> r == Err(TypeError)
    ensures r.Ok? && r.value.Some? ==> param.JObj?
  {
    match Member(param, "sample")
    case Err(e) => Err(e)
    case Ok(true) =>
      (match Index(param, "sample")
       case Err(e) => Err(e)
       case Ok(source) =>
         match GetField(param, "count", JInt(1))
         case Err(e) => Err(e)
         case Ok(countValue) =>
           match PyInt(countValue)
           case Err(e) => Err(e)
           case Ok(n) =>
             match Population(source)
             case Err(e) => Err(e)
             case Ok(pop) =>
               if n < 0 || n > |pop| then Err(ValueError)
               else
                 var samples := pick(i, key, pop, n);
                 assert |samples| == n;
                 var always := GetField(param, "always_array", JBool(false));
                 if n == 1 && !Truthy(always.value) then Ok(Some(samples[0]))
                 else Ok(Some(JList(samples))))
    case Ok(false) =>
      match Member(param, "constant")
      case Err(e) => Err(e)
      case Ok(true) =>
        (match Index(param, "constant")
         case Err(e) => Err(e)
         case Ok(v) => Ok(Some(v)))
      case Ok(false) => Ok(None)
  }

  /** The dict built for item `i` from the schema entries, in schema order. */
  function Item(schema: seq<(string, Json)>, i: nat, pick: (nat, string, seq<Json>, nat) -> seq<Json>): (r: Result<seq<(string, Json)>>)
    requires SamplerSound(pick)
  {
    if schema == [] then Ok([])
    else
      var (key, param) := schema[|schema| - 1];
      match Item(schema[..|schema| - 1], i, pick)
      case Err(e) => Err(e)
      case Ok(acc) =>
        match FieldValue(param, i, key, pick)
        case Err(e) => Err(e)
        case Ok(None) => Ok(acc)
        case Ok(Some(v)) => Ok(SetField(acc, key, v))
  }

  /** Once a prefix of the schema fails, the whole item fails the same way. */
  lemma {:induction false} ItemFailureStays(schema: seq<(string, Json)>, j: nat, i: nat,
                                             pick: (nat, string, seq<Json>, nat) -> seq<Json>)
    requires SamplerSound(pick)
    requires j <= |schema| && Item(schema[..j], i, pick).Err?
    ensures Item(schema, i, pick) == Item(schema[..j], i, pick)
    decreases |schema| - j
  {
    if j < |schema| {
      assert schema[..j + 1][..j] == schema[..j];
      ItemFailureStays(schema, j + 1, i, pick);
    } else {
      assert schema[..j] == schema;
    }
  }

  /** The first `n` items. */
  function Items(schema: seq<(string, Json)>, n: nat, pick: (nat, string, seq<Json>, nat) -> seq<Json>): (r: Result<seq<Json>>)
    requires SamplerSound(pick)
    ensures r.Ok? ==> |r.value| == n
    ensures r.Ok? ==> forall k :: 0 <= k < n ==> r.value[k].JObj? && Item(schema, k, pick) == Ok(r.value[k].fields)
  {
    if n == 0 then Ok([])
    else
      match Items(schema, n - 1, pick)
      case Err(e) => Err(e)
      case Ok(done) =>
        match Item(schema, n - 1, pick)
        case Err(e) => Err(e)
        case Ok(fields) =>
          assert forall k :: 0 <= k < n - 1 ==> (done + [JObj(fields)])[k] == done[k];
          Ok(done + [JObj(fields)])
  }

  /** Once an item fails, the whole list fails the same way. */
  lemma {:induction false} ItemsFailureStays(schema: seq<(string, Json)>, j: nat, n: nat,
                                              pick: (nat, string, seq<Json>, nat) -> seq<Json>)
    requires SamplerSound(pick)
    requires j <= n && Items(schema, j, pick).Err?
    ensures Items(schema, n, pick) == Items(schema, j, pick)
    decreases n - j
  {
    if j < n {
      ItemsFailureStays(schema, j + 1, n, pick);
    }
  }

  /** What `generate()` returns or raises. `params['schema']` is read on every
      item, so no item means no lookup. */
  function GenerateSpec(params: map<string, Json>, pick: (nat, string, seq<Json>, nat) -> seq<Json>): (r: Result<Json>)
    requires SamplerSound(pick)
    ensures "count" !in params ==> r == Err(KeyError)
    ensures r.Ok? ==> r.value.JObj? || r.value.JList?
  {
    if "count" !in params then Err(KeyError)
    else match PyInt(params["count"])
      case Err(e) => Err(e)
      case Ok(count) =>
        if count <= 0 then Ok(JList([]))
        else if "schema" !in params then Err(KeyError)
        else if !params["schema"].JObj? then Err(AttributeError)
        else
          match Items(params["schema"].fields, count, pick)
          case Err(e) => Err(e)
          case Ok(items) => if count == 1 then Ok(items[0]) else Ok(JList(items))
  }

  /** The result is one dict when `count` is 1 and otherwise a list of
      `count` dicts (none for a count below 1), the `k`-th built for item `k`. */
  lemma GenerateShape(params: map<string, Json>, pick: (nat, string, seq<Json>, nat) -> seq<Json>)
    requires SamplerSound(pick)
    requires GenerateSpec(params, pick).Ok?
    ensures "count" in params && PyInt(params["count"]).Ok?
    ensures var count := PyInt(params["count"]).value;
      var v := GenerateSpec(params, pick).value;
      && (count == 1 ==> v.JObj? && Item(params["schema"].fields, 0, pick) == Ok(v.fields))
      && (count != 1 ==> v.JList? && |v.items| == (if count > 0 then count else 0))
      && (count > 1 ==> forall k :: 0 <= k < count ==>
            v.items[k].JObj? && Item(params["schema"].fields, k, pick) == Ok(v.items[k].fields))
  {
  }

  /** The rules for one schema entry that is a dict: a `sample` entry gives
      one drawn item when its `count` is 1 and `always_array` is falsy, and
      otherwise the list of `count` drawn items; otherwise a `constant` entry
      gives the constant; an entry with neither gives nothing. */
  lemma FieldValueShape(fields: seq<(string, Json)>, i: nat, key: string, pick: (nat, string, seq<Json>, nat) -> seq<Json>)
    requires SamplerSound(pick)
    ensures var r := FieldValue(JObj(fields), i, key, pick);
      && (Field(fields, "sample").None? && Field(fields, "constant").None? ==> r == Ok(None))
      && (Field(fields, "sample").None? && Field(fields, "constant").Some? ==> r == Ok(Field(fields, "constant")))
      && (Field(fields, "sample").Some? && Field(fields, "sample").value.JList? && r.Ok? ==>
            var pop := Field(fields, "sample").value.items;
            var n := PyInt(GetField(JObj(fields), "count", JInt(1)).value).value;
            var always := Truthy(GetField(JObj(fields), "always_array", JBool(false)).value);
            && 0 <= n <= |pop|
            && r.value.Some?
            && (n == 1 && !always ==> r.value.value in pop)
            && (n != 1 || always ==>
                  && r.value.value.JList?
                  && |r.value.value.items| == n
                  && multiset(r.value.value.items) <= multiset(pop)))
  {
    var r := FieldValue(JObj(fields), i, key, pick);
    if Field(fields, "sample").Some? && Field(fields, "sample").value.JList? && r.Ok? {
      var pop := Field(fields, "sample").value.items;
      var n := PyInt(GetField(JObj(fields), "count", JInt(1)).value).value;
      var samples := pick(i, key, pop, n);
      if n == 1 && !Truthy(GetField(JObj(fields), "always_array", JBool(false)).value) {
        assert samples[0] in multiset(samples);
      }
    }
  }

  /** A successful item extends the item of the schema without its last
      entry by that entry's value, if it gives one. */
  lemma ItemSnoc(schema: seq<(string, Json)>, i: nat, pick: (nat, string, seq<Json>, nat) -> seq<Json>)
    requires SamplerSound(pick)
    requires schema != [] && Item(schema, i, pick).Ok?
    ensures var init, last := schema[..|schema| - 1], schema[|schema| - 1];
      var fv := FieldValue(last.1, i, last.0, pick);
      && Item(init, i, pick).Ok? && fv.Ok?
      && Item(schema, i, pick).value ==
           if fv.value.Some? then SetField(Item(init, i, pick).value, last.0, fv.value.value) else Item(init, i, pick).value
  {
  }

  /** A key no schema entry names is not in the item. */
  lemma {:induction false} ItemOmits(schema: seq<(string, Json)>, i: nat, pick: (nat, string, seq<Json>, nat) -> seq<Json>, key: string)
    requires SamplerSound(pick)
    requires Item(schema, i, pick).Ok?
    requires forall k :: 0 <= k < |schema| ==> schema[k].0 != key
    ensures Field(Item(schema, i, pick).value, key).None?
  {
    if schema != [] {
      var init := schema[..|schema| - 1];
      ItemSnoc(schema, i, pick);
      assert forall k :: 0 <= k < |init| ==> init[k] == schema[k];
      ItemOmits(init, i, pick, key);
    }
  }

  /** With distinct schema keys, every entry's key holds the value that entry gives. */
  lemma {:induction false} ItemHolds(schema: seq<(string, Json)>, i: nat, pick: (nat, string, seq<Json>, nat) -> seq<Json>)
    requires SamplerSound(pick)
    requires forall a, b :: 0 <= a < b < |schema| ==> schema[a].0 != schema[b].0
    requires Item(schema, i, pick).Ok?
    ensures forall k :: 0 <= k < |schema| ==>
      FieldValue(schema[k].1, i, schema[k].0, pick).Ok? &&
      Field(Item(schema, i, pick).value, schema[k].0) == FieldValue(schema[k].1, i, schema[k].0, pick).value
  {
    if schema != [] {
      var init, last := schema[..|schema| - 1], schema[|schema| - 1];
      ItemSnoc(schema, i, pick);
      var acc := Item(init, i, pick).value;
      var r := Item(schema, i, pick).value;
      assert forall k :: 0 <= k < |init| ==> init[k] == schema[k];
      ItemHolds(init, i, pick);
      ItemOmits(init, i, pick, last.0);
      var fv := FieldValue(last.1, i, last.0, pick).value;
      forall k | 0 <= k < |schema|
        ensures FieldValue(schema[k].1, i, schema[k].0, pick).Ok?
        ensures Field(r, schema[k].0) == FieldValue(schema[k].1, i, schema[k].0, pick).value
      {
        if k < |init| {
          assert schema[k] == init[k] && schema[k].0 != last.0;
          SetFieldKeeps(acc, r, last.0, fv, schema[k].0);
          assert Field(acc, init[k].0) == FieldValue(init[k].1, i, init[k].0, pick).value;
        } else {
          assert schema[k] == last;
          SetFieldSets(acc, r, last.0, fv);
        }
      }
    }
  }

  lemma SetFieldKeeps(acc: seq<(string, Json)>, r: seq<(string, Json)>, key: string, v: Option<Json>, other: string)
    requires r == if v.Some? then SetField(acc, key, v.value) else acc
    requires other != key
    ensures Field(r, other) == Field(acc, other)
  {
  }

  lemma SetFieldSets(acc: seq<(string, Json)>, r: seq<(string, Json)>, key: string, v: Option<Json>)
    requires r == if v.Some? then SetField(acc, key, v.value) else acc
    requires Field(acc, key).None?
    ensures Field(r, key) == v
  {
  }

  /** With distinct schema keys, the item holds exactly the entries that give
      a value, each under its own key. */
  lemma ItemFields(schema: seq<(string, Json)>, i: nat, pick: (nat, string, seq<Json>, nat) -> seq<Json>)
    requires SamplerSound(pick)
    requires forall a, b :: 0 <= a < b < |schema| ==> schema[a].0 != schema[b].0
    requires Item(schema, i, pick).Ok?
    ensures forall k :: 0 <= k < |schema| ==>
      FieldValue(schema[k].1, i, schema[k].0, pick).Ok? &&
      Field(Item(schema, i, pick).value, schema[k].0) == FieldValue(schema[k].1, i, schema[k].0, pick).value
    ensures forall key :: (forall k :: 0 <= k < |schema| ==> schema[k].0 != key) ==>
      Field(Item(schema, i, pick).value, key).None?
  {
    ItemHolds(schema, i, pick);
    forall key | forall k :: 0 <= k < |schema| ==> schema[k].0 != key
      ensures Field(Item(schema, i, pick).value, key).None?
    {
      ItemOmits(schema, i, pick, key);
    }
  }

  /** One more item extends the items built so far by its dict. */
  lemma ItemsSnoc(schema: seq<(string, Json)>, i: nat, pick: (nat, string, seq<Json>, nat) -> seq<Json>,
                  done: seq<Json>, fields: seq<(string, Json)>)
    requires SamplerSound(pick)
    requires Items(schema, i, pick) == Ok(done) && Item(schema, i, pick) == Ok(fields)
    ensures Items(schema, i + 1, pick) == Ok(done + [JObj(fields)])
  {
  }

  /** An item that fails ends generation with its error. */
  lemma ItemsFailAt(schema: seq<(string, Json)>, i: nat, n: nat, pick: (nat, string, seq<Json>, nat) -> seq<Json>,
                    done: seq<Json>, e: PyError)
    requires SamplerSound(pick)
    requires i < n && Items(schema, i, pick) == Ok(done) && Item(schema, i, pick) == Err(e)
    ensures Items(schema, n, pick) == Err(e)
  {
    assert Items(schema, i + 1, pick) == Err(e);
    ItemsFailureStays(schema, i + 1, n, pick);
  }

  /** Once the items are built, `generate()` returns the one dict for a count
      of 1 and otherwise the list of them. */
  lemma GenerateOfItems(params: map<string, Json>, pick: (nat, string, seq<Json>, nat) -> seq<Json>, count: int, results: seq<Json>)
    requires SamplerSound(pick)
    requires "count" in params && PyInt(params["count"]) == Ok(count)
    requires count > 0 ==> "schema" in params && params["schema"].JObj? && Items(params["schema"].fields, count, pick) == Ok(results)
    requires count <= 0 ==> results == []
    ensures count == 1 ==> |results| == 1 && GenerateSpec(params, pick) == Ok(results[0])
    ensures count != 1 ==> GenerateSpec(params, pick) == Ok(JList(results))
  {
  }

  /** `StepIdeaSource.generate()`: one dict per item, one entry per schema field. */
  method Generate(params: map<string, Json>, pick: (nat, string, seq<Json>, nat) -> seq<Json>) returns (r: Result<Json>)
    requires SamplerSound(pick)
    ensures r == GenerateSpec(params, pick)
  {
    if "count" !in params {
      return Err(KeyError);
    }
    var parsed := PyInt(params["count"]);
    if parsed.Err? {
      return Err(parsed.error);
    }
    var count := parsed.value;
    var built := GenerateItems(params, count, pick);
    if built.Err? {
      return Err(built.error);
    }
    var results := built.value;
    GenerateOfItems(params, pick, count, results);
    if count == 1 {
      r := Ok(results[0]);
    } else {
      r := Ok(JList(results));
    }
  }

  /** The loop `for _ in range(count)` of `generate()`, which reads
      `params['schema']` on every pass: no items for a count below 1, and
      otherwise `KeyError` without a schema, `AttributeError` when it is not a
      dict, and else the items built one by one. */
  method GenerateItems(params: map<string, Json>, count: int, pick: (nat, string, seq<Json>, nat) -> seq<Json>)
    returns (r: Result<seq<Json>>)
    requires SamplerSound(pick)
    ensures count <= 0 ==> r == Ok([])
    ensures count > 0 && "schema" !in params ==> r == Err(KeyError)
    ensures count > 0 && "schema" in params && !params["schema"].JObj? ==> r == Err(AttributeError)
    ensures count > 0 && "schema" in params && params["schema"].JObj? ==> r == Items(params["schema"].fields, count, pick)
  {
    var results: seq<Json> := [];
    var i := 0;
    while i < count
      invariant 0 <= i <= if count > 0 then count else 0
      invariant i == 0 ==> results == []
      invariant i > 0 ==> "schema" in params && params["schema"].JObj?
      invariant i > 0 ==> Items(params["schema"].fields, i, pick) == Ok(results)
    {
      if "schema" !in params {
        return Err(KeyError);
      }
      var schema := params["schema"];
      if !schema.JObj? {
        return Err(AttributeError);
      }
      var item := BuildItem(schema.fields, i, pick);
      if item.Err? {
        ItemsFailAt(schema.fields, i, count, pick, results, item.error);
        return Err(item.error);
      }
      ItemsSnoc(schema.fields, i, pick, results, item.value);
      results := results + [JObj(item.value)];
      i := i + 1;
    }
    return Ok(results);
  }

  /** The inner loop of `generate()`: `result[key] = ...` for every schema entry. */
  method BuildItem(schema: seq<(string, Json)>, i: nat, pick: (nat, string, seq<Json>, nat) -> seq<Json>)
    returns (r: Result<seq<(string, Json)>>)
    requires SamplerSound(pick)
    ensures r == Item(schema, i, pick)
  {
    var result: seq<(string, Json)> := [];
    var j := 0;
    while j < |schema|
      invariant 0 <= j <= |schema|
      invariant Item(schema[..j], i, pick) == Ok(result)
    {
      var (key, param) := schema[j];
      assert schema[..j + 1][..j] == schema[..j];
      var v := FieldValue(param, i, key, pick);
      if v.Err? {
        ItemFailureStays(schema, j + 1, i, pick);
        return Err(v.error);
      }
      if v.value.Some? {
        result := SetField(result, key, v.value.value);
      }
      j := j + 1;
    }
    assert schema[..j] == schema;
    r := Ok(result);
  }
}
